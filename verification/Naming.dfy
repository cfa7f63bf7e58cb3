/** Where a received file is stored: file_basename_sanitize, file_unique_name and file_join_path of src/file.c. */
module Naming {
  import opened Bytes
  import opened Decimal

  const SLASH: byte := 0x2F
  const BACKSLASH: byte := 0x5C
  const DOT: byte := 0x2E
  const UNDERSCORE: byte := 0x5F
  const MAX_FILENAME_LEN: nat := 256
  const CANDIDATE_SIZE: nat := 512
  const PATH_SIZE: nat := 512
  const MAX_TRIES: nat := 1000

  predicate IsSeparator(c: byte) {
    c == SLASH || c == BACKSLASH
  }

  /** Plain char is signed on the one platform the project builds for (x86-64). */
  function SignedChar(c: byte): int {
    if c < 0x80 then c else c - 0x100
  }

  /** Bytes from 0x80 up are negative as chars, so they are replaced like control characters. */
  function CleanByte(c: byte): byte {
    if SignedChar(c) < 0x20 then UNDERSCORE else c
  }

  function Clean(s: Bytes): (r: Bytes)
    ensures |r| == |s| && forall i :: 0 <= i < |s| ==> r[i] == CleanByte(s[i])
  {
    seq(|s|, i requires 0 <= i < |s| => CleanByte(s[i]))
  }

  /** The position after the last separator. */
  function BaseStart(raw: Bytes): (k: nat)
    ensures k <= |raw|
    ensures k > 0 ==> IsSeparator(raw[k - 1])
    ensures forall i :: k <= i < |raw| ==> !IsSeparator(raw[i])
  {
    if raw == [] then 0
    else if IsSeparator(raw[|raw| - 1]) then |raw|
    else BaseStart(raw[..|raw| - 1])
  }

  /** What follows the last separator. */
  function LastPart(raw: Bytes): Bytes {
    raw[BaseStart(raw)..]
  }

  function Sanitize(raw: Bytes, outSize: nat): Option<Bytes> {
    var base := LastPart(raw);
    if |base| == 0 || |base| >= outSize then None
    else if base == [DOT] || base == [DOT, DOT] then None
    else Some(Clean(base))
  }

  /** A name that stays inside the directory it is joined to. */
  predicate SafeName(name: Bytes) {
    && name != []
    && (forall i :: 0 <= i < |name| ==> !IsSeparator(name[i]))
    && name != [DOT] && name != [DOT, DOT]
  }

  lemma BaseOfPlain(name: Bytes)
    requires forall i :: 0 <= i < |name| ==> !IsSeparator(name[i])
    ensures BaseStart(name) == 0
  {
  }

  /** Whatever the peer calls the file, the accepted name is safe, short and ASCII, with no byte below 0x20. */
  lemma SanitizeSafe(raw: Bytes, outSize: nat)
    ensures var r := Sanitize(raw, outSize);
            r.Some? ==>
              && SafeName(r.value) && |r.value| < outSize
              && forall i :: 0 <= i < |r.value| ==> 0x20 <= r.value[i] < 0x80
  {
  }

  /** Sanitising twice changes nothing more. */
  lemma SanitizeIdempotent(raw: Bytes, outSize: nat)
    ensures var r := Sanitize(raw, outSize);
            r.Some? ==> Sanitize(r.value, outSize) == r
  {
    var r := Sanitize(raw, outSize);
    if r.Some? {
      SanitizeSafe(raw, outSize);
      BaseOfPlain(r.value);
      assert r.value[0..] == r.value;
      assert Clean(r.value) == r.value;
    }
  }

  lemma {:induction false} BaseAfterDirectory(dir: Bytes, base: Bytes)
    requires dir == [] || IsSeparator(dir[|dir| - 1])
    requires forall i :: 0 <= i < |base| ==> !IsSeparator(base[i])
    ensures BaseStart(dir + base) == |dir|
    decreases |base|
  {
    var raw := dir + base;
    if base == [] {
      assert raw == dir;
    } else {
      assert raw[..|raw| - 1] == dir + base[..|base| - 1];
      BaseAfterDirectory(dir, base[..|base| - 1]);
    }
  }

  /** Only what follows the last separator matters, and it is refused exactly when it is empty, a dot name or too
      long. */
  lemma SanitizeRefuses(dir: Bytes, base: Bytes, outSize: nat)
    requires dir == [] || IsSeparator(dir[|dir| - 1])
    requires forall i :: 0 <= i < |base| ==> !IsSeparator(base[i])
    ensures Sanitize(dir + base, outSize).None? <==>
            |base| == 0 || base == [DOT] || base == [DOT, DOT] || |base| >= outSize
    ensures Sanitize(dir + base, outSize).Some? ==> Sanitize(dir + base, outSize).value == Clean(base)
  {
    BaseAfterDirectory(dir, base);
    assert (dir + base)[|dir|..] == base;
  }

  /** The cleaning the header describes: only bytes below 0x20 become '_'. */
  function Documented(s: Bytes): Bytes {
    seq(|s|, i requires 0 <= i < |s| => if s[i] < 0x20 then UNDERSCORE else s[i])
  }

  predicate Ascii7(s: Bytes) {
    forall i :: 0 <= i < |s| ==> s[i] < 0x80
  }

  lemma CleanAsDocumented(s: Bytes)
    ensures Clean(s) == Documented(s) <==> Ascii7(s)
  {
    if i :| 0 <= i < |s| && s[i] >= 0x80 {
      assert Clean(s)[i] == UNDERSCORE != Documented(s)[i];
    } else {
      assert Clean(s) == Documented(s);
    }
  }

  /** The header's account of an accepted name is right exactly for names without a byte from 0x80 up. */
  lemma SanitizeAsDocumented(dir: Bytes, base: Bytes, outSize: nat)
    requires dir == [] || IsSeparator(dir[|dir| - 1])
    requires forall i :: 0 <= i < |base| ==> !IsSeparator(base[i])
    requires Sanitize(dir + base, outSize).Some?
    ensures Sanitize(dir + base, outSize) == Some(Documented(base)) <==> Ascii7(base)
  {
    SanitizeRefuses(dir, base, outSize);
    CleanAsDocumented(base);
  }

  /** An acceptable name is kept as it is exactly when its bytes are printable ASCII, DEL or '_'. */
  lemma SanitizeKeeps(base: Bytes, outSize: nat)
    requires forall i :: 0 <= i < |base| ==> !IsSeparator(base[i])
    requires 0 < |base| < outSize && base != [DOT] && base != [DOT, DOT]
    ensures Sanitize(base, outSize) == Some(base) <==>
            forall i :: 0 <= i < |base| ==> 0x20 <= base[i] < 0x80
  {
    BaseOfPlain(base);
    assert base[0..] == base;
    if i :| 0 <= i < |base| && !(0x20 <= base[i] < 0x80) {
      assert Clean(base)[i] == UNDERSCORE != base[i];
    } else {
      assert Clean(base) == base;
    }
  }

  /** Names of the same length without an ASCII byte all come out as the same row of '_', which the header promises for
      none of them. */
  lemma NonAsciiNamesCollide(a: Bytes, b: Bytes, outSize: nat)
    requires 0 < |a| == |b| < outSize
    requires forall i :: 0 <= i < |a| ==> a[i] >= 0x80 && b[i] >= 0x80
    ensures Sanitize(a, outSize) == Sanitize(b, outSize) == Some(seq(|a|, _ => UNDERSCORE))
    ensures Documented(a) == a && Documented(b) == b && Sanitize(a, outSize) != Some(a)
  {
    BaseOfPlain(a);
    BaseOfPlain(b);
    assert a[0..] == a && b[0..] == b;
    assert Clean(a) == Clean(b) == seq(|a|, _ => UNDERSCORE);
    assert Clean(a)[0] != a[0];
  }

  /** U+00E9 and U+00EA in UTF-8. */
  lemma TwoAccents()
    ensures var e, f := [0xC3, 0xA9], [0xC3, 0xAA];
            && Sanitize(e, MAX_FILENAME_LEN) == Sanitize(f, MAX_FILENAME_LEN) == Some([UNDERSCORE, UNDERSCORE])
            && Documented(e) == e && Documented(f) == f
  {
    var e: Bytes, f: Bytes := [0xC3, 0xA9], [0xC3, 0xAA];
    NonAsciiNamesCollide(e, f, MAX_FILENAME_LEN);
    assert seq(|e|, _ => UNDERSCORE) == [UNDERSCORE, UNDERSCORE];
  }

  /** file_basename_sanitize, writing into the caller's buffer. */
  method SanitizeInto(raw: Bytes, out: array<byte>) returns (code: int)
    modifies out
    ensures code == 0 || code == -1
    ensures code == 0 <==> Sanitize(raw, out.Length).Some?
    ensures code == 0 ==> Stored(out, 0, Sanitize(raw, out.Length).value + [0])
    ensures code == -1 ==> out[..] == old(out[..])
  {
    var start := 0;
    var p := 0;
    while p < |raw|
      invariant p <= |raw| && start == BaseStart(raw[..p])
    {
      assert raw[..p + 1][..p] == raw[..p];
      if raw[p] == SLASH || raw[p] == BACKSLASH {
        start := p + 1;
      }
      p := p + 1;
    }
    assert raw[..p] == raw;
    var base := raw[start..];
    var len := |base|;
    if len == 0 || len >= out.Length {
      return -1;
    }
    if base == [DOT] || base == [DOT, DOT] {
      return -1;
    }
    for i := 0 to len
      invariant forall k :: 0 <= k < out.Length ==> out[k] == if k < i then CleanByte(base[k]) else old(out[k])
    {
      out[i] := CleanByte(base[i]);
    }
    out[len] := 0;
    return 0;
  }

  /** The name as the caller reads it back from its own buffer. */
  method SanitizedName(raw: Bytes) returns (r: Option<Bytes>)
    ensures r == Sanitize(raw, MAX_FILENAME_LEN)
  {
    var buf := new byte[MAX_FILENAME_LEN];
    var code := SanitizeInto(raw, buf);
    if code < 0 {
      return None;
    }
    ghost var name := Sanitize(raw, MAX_FILENAME_LEN).value;
    SanitizeSafe(raw, MAX_FILENAME_LEN);
    assert buf[..][..|name|] == name;
    TerminatedAt(buf[..], |name|);
    return Some(CStr(buf[..]));
  }

  // ---- unique names ----

  /** base, then "base (1)", "base (2)", ... */
  function Candidate(base: Bytes, i: nat): Bytes {
    if i == 0 then base else base + Ascii(" (") + Digits(i) + Ascii(")")
  }

  function UniqueFrom(base: Bytes, probe: Bytes -> bool, outSize: nat, i: nat): Option<Bytes>
    decreases MAX_TRIES - i
  {
    if i >= MAX_TRIES then None
    else
      var c := Candidate(base, i);
      if |c| >= CANDIDATE_SIZE then None
      else if !probe(c) then (if |c| >= outSize then None else Some(c))
      else UniqueFrom(base, probe, outSize, i + 1)
  }

  function UniqueName(base: Bytes, probe: Bytes -> bool, outSize: nat): Option<Bytes> {
    UniqueFrom(base, probe, outSize, 0)
  }

  lemma {:induction false} UniqueFromLeast(base: Bytes, probe: Bytes -> bool, outSize: nat, i: nat) returns (k: nat)
    requires i <= MAX_TRIES
    ensures i <= k <= MAX_TRIES
    ensures forall j :: i <= j < k ==> probe(Candidate(base, j))
    ensures var r := UniqueFrom(base, probe, outSize, i);
            if r.Some? then
              k < MAX_TRIES && r.value == Candidate(base, k) && !probe(r.value) && |r.value| < outSize
            else
              k < MAX_TRIES ==> |Candidate(base, k)| >= CANDIDATE_SIZE
                                || (!probe(Candidate(base, k)) && |Candidate(base, k)| >= outSize)
    decreases MAX_TRIES - i
  {
    if i == MAX_TRIES || |Candidate(base, i)| >= CANDIDATE_SIZE || !probe(Candidate(base, i)) {
      k := i;
    } else {
      k := UniqueFromLeast(base, probe, outSize, i + 1);
    }
  }

  predicate LeastFree(base: Bytes, probe: Bytes -> bool, k: nat) {
    && k < MAX_TRIES
    && !probe(Candidate(base, k))
    && forall j :: 0 <= j < k ==> probe(Candidate(base, j))
  }

  /** The answer is the least-index free candidate, when that fits the caller's buffer. */
  lemma UniqueNameLeast(base: Bytes, probe: Bytes -> bool, outSize: nat)
    requires UniqueName(base, probe, outSize).Some?
    ensures var c := UniqueName(base, probe, outSize).value;
            && !probe(c) && |c| < outSize
            && exists k: nat :: LeastFree(base, probe, k) && c == Candidate(base, k)
  {
    var k := UniqueFromLeast(base, probe, outSize, 0);
    assert LeastFree(base, probe, k);
  }

  /** The first candidate is the name itself, the others add " (i)" with i in decimal, without leading zeros. */
  lemma CandidateForm(base: Bytes, i: nat) returns (digits: Bytes)
    ensures Candidate(base, 0) == base
    ensures AllDigits(digits) && Value(digits) == i && (i > 0 ==> digits != [] && digits[0] != ZERO)
    ensures i > 0 ==> Candidate(base, i) == base + [0x20, 0x28] + digits + [0x29]
  {
    digits := Digits(i);
    DigitsValue(i);
    NoLeadingZero(i);
    assert Ascii(" (") == [0x20, 0x28] && Ascii(")") == [0x29];
  }

  lemma {:induction false} NoLeadingZero(n: nat)
    ensures n > 0 ==> Digits(n)[0] != ZERO
  {
    if n >= 10 {
      NoLeadingZero(n / 10);
    }
  }

  /** The candidates are pairwise distinct. */
  lemma CandidatesDistinct(base: Bytes, i: nat, j: nat)
    requires Candidate(base, i) == Candidate(base, j)
    ensures i == j
  {
    var c := Candidate(base, i);
    if i == 0 || j == 0 {
      assert |c| == |base|;
    } else {
      assert Digits(i) == c[|base| + 2..|c| - 1];
      assert Digits(j) == c[|base| + 2..|c| - 1];
      DigitsInjective(i, j);
    }
  }

  lemma CandidateLength(base: Bytes, i: nat)
    requires i < MAX_TRIES
    ensures |Candidate(base, i)| <= |base| + 6
  {
    assert Pow10(1) == 10;
    assert Pow10(3) == MAX_TRIES;
    DigitsLength(i, 3);
  }

  /** The first n candidates, as a set of n names. */
  lemma {:induction false} CandidateSet(base: Bytes, n: nat) returns (s: set<Bytes>)
    ensures |s| == n && forall c :: c in s <==> exists i: nat :: i < n && c == Candidate(base, i)
  {
    if n == 0 {
      s := {};
    } else {
      var t := CandidateSet(base, n - 1);
      if Candidate(base, n - 1) in t {
        var i: nat :| i < n - 1 && Candidate(base, n - 1) == Candidate(base, i);
        CandidatesDistinct(base, n - 1, i);
      }
      s := t + {Candidate(base, n - 1)};
    }
  }

  lemma SubsetSize(a: set<Bytes>, b: set<Bytes>)
    requires a <= b
    ensures |a| <= |b|
  {
    assert b == a + (b - a);
  }

  /** With fewer than 1000 candidates taken and room for the suffix, the search succeeds. */
  lemma UniqueNameSucceeds(base: Bytes, probe: Bytes -> bool, taken: set<Bytes>, outSize: nat)
    requires forall i: nat :: i < MAX_TRIES && probe(Candidate(base, i)) ==> Candidate(base, i) in taken
    requires |taken| < MAX_TRIES && |base| + 6 < outSize <= CANDIDATE_SIZE
    ensures UniqueName(base, probe, outSize).Some?
  {
    var k := UniqueFromLeast(base, probe, outSize, 0);
    if k == MAX_TRIES {
      var s := CandidateSet(base, MAX_TRIES);
      forall c | c in s ensures c in taken {
        var i: nat :| i < MAX_TRIES && c == Candidate(base, i);
      }
      SubsetSize(s, taken);
    } else {
      CandidateLength(base, k);
    }
  }

  lemma CandidateSafe(base: Bytes, i: nat)
    requires SafeName(base)
    ensures SafeName(Candidate(base, i))
  {
    var c := Candidate(base, i);
    if i > 0 {
      DigitsValue(i);
      assert c[|c| - 1] == 0x29;
      forall k | 0 <= k < |c| ensures !IsSeparator(c[k]) {
        if |base| + 2 <= k < |c| - 1 {
          assert c[k] == Digits(i)[k - |base| - 2];
        }
      }
    }
  }

  /** Numbering a safe name keeps it safe. */
  lemma UniqueNameSafe(base: Bytes, probe: Bytes -> bool, outSize: nat)
    requires SafeName(base) && UniqueName(base, probe, outSize).Some?
    ensures SafeName(UniqueName(base, probe, outSize).value)
  {
    var k := UniqueFromLeast(base, probe, outSize, 0);
    CandidateSafe(base, k);
  }

  /** file_unique_name: probe the candidates in turn. */
  method FindUniqueName(base: Bytes, probe: Bytes -> bool, outSize: nat) returns (r: Option<Bytes>)
    ensures r == UniqueName(base, probe, outSize)
    ensures r.Some? ==> exists k: nat :: LeastFree(base, probe, k) && r.value == Candidate(base, k)
    ensures r.Some? ==> |r.value| < outSize
  {
    var i := 0;
    while i < MAX_TRIES
      invariant i <= MAX_TRIES
      invariant forall j :: 0 <= j < i ==> probe(Candidate(base, j))
      invariant UniqueName(base, probe, outSize) == UniqueFrom(base, probe, outSize, i)
    {
      var candidate := Candidate(base, i);
      if |candidate| >= CANDIDATE_SIZE {
        return None;
      }
      if !probe(candidate) {
        if |candidate| >= outSize {
          return None;
        }
        assert LeastFree(base, probe, i);
        return Some(candidate);
      }
      i := i + 1;
    }
    return None;
  }

  // ---- the downloads directory ----

  const DOWNLOAD_DIR := "downloads/"

  /** file_join_path("downloads", name) fits its buffer. */
  predicate JoinFits(name: Bytes) {
    |DOWNLOAD_DIR| + |name| < PATH_SIZE
  }

  /** recv_name_taken: a path that cannot be built counts as taken. */
  function NameTaken(existing: set<Bytes>): Bytes -> bool {
    name => !JoinFits(name) || name in existing
  }

  predicate NameFree(existing: set<Bytes>, base: Bytes, i: nat) {
    i < MAX_TRIES && Candidate(base, i) !in existing
  }

  lemma TakenExactly(existing: set<Bytes>, base: Bytes, i: nat)
    requires i < MAX_TRIES && |base| <= MAX_FILENAME_LEN - 7
    ensures NameTaken(existing)(Candidate(base, i)) <==> Candidate(base, i) in existing
    ensures |Candidate(base, i)| < MAX_FILENAME_LEN
  {
    CandidateLength(base, i);
  }

  /** In a directory with the given files a base of at most 249 bytes gets a name exactly when one of its 1000
      candidates is free, so always when there are fewer than 1000 files. */
  lemma SaveNameFound(existing: set<Bytes>, base: Bytes)
    requires |base| <= MAX_FILENAME_LEN - 7
    ensures var r := UniqueName(base, NameTaken(existing), MAX_FILENAME_LEN);
            && (r.Some? <==> exists i: nat :: NameFree(existing, base, i))
            && (r.Some? ==> r.value !in existing)
            && (|existing| < MAX_TRIES ==> r.Some?)
  {
    var k := UniqueFromLeast(base, NameTaken(existing), MAX_FILENAME_LEN, 0);
    forall i: nat | i < MAX_TRIES
      ensures NameTaken(existing)(Candidate(base, i)) <==> Candidate(base, i) in existing
      ensures |Candidate(base, i)| < MAX_FILENAME_LEN
    {
      TakenExactly(existing, base, i);
    }
    if k < MAX_TRIES {
      assert NameFree(existing, base, k);
    }
    if |existing| < MAX_TRIES {
      UniqueNameSucceeds(base, NameTaken(existing), existing, MAX_FILENAME_LEN);
    }
  }

  /** The 249 bytes are exact: from 250 on, 100 files are enough to be refused, although "base (100)" is free. */
  lemma LongBaseRefused(base: Bytes) returns (existing: set<Bytes>)
    requires MAX_FILENAME_LEN - 7 < |base| < MAX_FILENAME_LEN
    ensures |existing| == 100 && Candidate(base, 100) !in existing
    ensures UniqueName(base, NameTaken(existing), MAX_FILENAME_LEN).None?
  {
    existing := CandidateSet(base, 100);
    if Candidate(base, 100) in existing {
      var i: nat :| i < 100 && Candidate(base, 100) == Candidate(base, i);
      CandidatesDistinct(base, 100, i);
    }
    var k := UniqueFromLeast(base, NameTaken(existing), MAX_FILENAME_LEN, 0);
    HundredLength(base);
    if k < 100 {
      assert Candidate(base, k) in existing;
    } else {
      assert !NameTaken(existing)(Candidate(base, 100));
    }
  }

  lemma HundredLength(base: Bytes)
    ensures |Candidate(base, 100)| == |base| + 6
  {
    assert |Digits(10)| == 2;
  }

  /** k is the least index whose candidate is no file of the directory. */
  predicate FirstUnused(existing: set<Bytes>, base: Bytes, k: nat) {
    NameFree(existing, base, k) && forall j :: 0 <= j < k ==> Candidate(base, j) in existing
  }

  /** The name under which a file offered as filename belongs into a directory with these files. */
  predicate SavedUnder(filename: Bytes, existing: set<Bytes>, name: Bytes) {
    var base := Clean(LastPart(filename));
    exists k :: 0 <= k < MAX_TRIES && FirstUnused(existing, base, k) && name == Candidate(base, k)
  }

  lemma TakenIsThere(existing: set<Bytes>, base: Bytes, i: nat)
    requires i < MAX_TRIES && |base| < MAX_FILENAME_LEN
    ensures NameTaken(existing)(Candidate(base, i)) <==> Candidate(base, i) in existing
  {
    CandidateLength(base, i);
  }

  /** The name the client chooses is that name. */
  lemma ChosenName(filename: Bytes, existing: set<Bytes>)
    requires Sanitize(filename, MAX_FILENAME_LEN).Some?
    requires UniqueName(Sanitize(filename, MAX_FILENAME_LEN).value, NameTaken(existing), MAX_FILENAME_LEN).Some?
    ensures SavedUnder(filename, existing,
                       UniqueName(Sanitize(filename, MAX_FILENAME_LEN).value, NameTaken(existing),
                                  MAX_FILENAME_LEN).value)
  {
    var base := Clean(LastPart(filename));
    var k := UniqueFromLeast(base, NameTaken(existing), MAX_FILENAME_LEN, 0);
    TakenIsThere(existing, base, k);
    forall j | 0 <= j < k ensures Candidate(base, j) in existing {
      TakenIsThere(existing, base, j);
    }
    assert FirstUnused(existing, base, k);
  }

  lemma LastPartOf(dir: Bytes, base: Bytes)
    requires dir == [] || IsSeparator(dir[|dir| - 1])
    requires forall i :: 0 <= i < |base| ==> !IsSeparator(base[i])
    ensures LastPart(dir + base) == base
  {
    BaseAfterDirectory(dir, base);
  }

  lemma UnusedItself(existing: set<Bytes>, base: Bytes, k: nat)
    requires FirstUnused(existing, base, k) && base !in existing
    ensures Candidate(base, k) == base
  {
    assert Candidate(base, 0) == base;
  }

  predicate PrintableAscii(s: Bytes) {
    forall i :: 0 <= i < |s| ==> 0x20 <= s[i] < 0x80
  }

  lemma CleanKeeps(s: Bytes)
    requires PrintableAscii(s)
    ensures Clean(s) == s
  {
  }

  /** For a path: the last part, cleaned, itself when no file has that name, and otherwise with the least free number. A
      printable ASCII name that is not there yet is kept as it is. */
  lemma SavedUnderPath(dir: Bytes, base: Bytes, existing: set<Bytes>, name: Bytes) returns (k: nat)
    requires dir == [] || IsSeparator(dir[|dir| - 1])
    requires forall i :: 0 <= i < |base| ==> !IsSeparator(base[i])
    requires SavedUnder(dir + base, existing, name)
    ensures FirstUnused(existing, Clean(base), k) && name == Candidate(Clean(base), k)
    ensures Clean(base) !in existing ==> name == Clean(base)
    ensures base !in existing && PrintableAscii(base) ==> name == base
  {
    LastPartOf(dir, base);
    k :| 0 <= k < MAX_TRIES && FirstUnused(existing, Clean(base), k) && name == Candidate(Clean(base), k);
    if Clean(base) !in existing {
      UnusedItself(existing, Clean(base), k);
    }
    if PrintableAscii(base) {
      CleanKeeps(base);
    }
  }
}
