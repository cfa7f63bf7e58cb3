/** Input lines: the tokenisers and commands_handle_line of src/commands.c, and the trimming of src/utils.c. */
module Commands {
  import opened Bytes
  import opened Decimal
  import opened Protocol
  import opened Naming

  const MAX_USERNAME_LEN: nat := 32
  const MAX_GROUP_NAME_LEN: nat := 32
  const MAX_MESSAGE_LEN: nat := 65535
  const SPACE: byte := 0x20
  const TAB: byte := 0x09
  const LF: byte := 0x0A
  const CR: byte := 0x0D
  const COMMAND_MARK: byte := 0x2F

  predicate IsBlank(c: byte) {
    c == SPACE || c == TAB
  }

  predicate AllBlank(s: Bytes) {
    forall i :: 0 <= i < |s| ==> IsBlank(s[i])
  }

  predicate NoBlank(s: Bytes) {
    forall i :: 0 <= i < |s| ==> !IsBlank(s[i])
  }

  // ---- walking a pointer ----

  function SkipBlanks(s: Bytes, i: nat): (j: nat)
    requires i <= |s|
    ensures i <= j <= |s| && AllBlank(s[i..j])
    ensures j < |s| ==> !IsBlank(s[j])
    decreases |s| - i
  {
    if i < |s| && IsBlank(s[i]) then SkipBlanks(s, i + 1) else i
  }

  function SkipWord(s: Bytes, i: nat): (j: nat)
    requires i <= |s|
    ensures i <= j <= |s| && NoBlank(s[i..j])
    ensures j < |s| ==> IsBlank(s[j])
    decreases |s| - i
  {
    if i < |s| && !IsBlank(s[i]) then SkipWord(s, i + 1) else i
  }

  method WalkBlanks(s: Bytes, from: nat) returns (p: nat)
    requires from <= |s|
    ensures p == SkipBlanks(s, from)
  {
    p := from;
    while p < |s| && (s[p] == SPACE || s[p] == TAB)
      invariant from <= p <= |s| && SkipBlanks(s, from) == SkipBlanks(s, p)
    {
      p := p + 1;
    }
  }

  method WalkWord(s: Bytes, from: nat) returns (p: nat)
    requires from <= |s|
    ensures p == SkipWord(s, from)
  {
    p := from;
    while p < |s| && s[p] != SPACE && s[p] != TAB
      invariant from <= p <= |s| && SkipWord(s, from) == SkipWord(s, p)
    {
      p := p + 1;
    }
  }

  // ---- a name and the rest of the line ----

  datatype NameAndText = NameAndText(name: Bytes, text: Bytes)

  /** What /priv, /gmsg and /sendfile make of the part of the line behind the command. */
  function SplitArgs(args: Bytes, nameSize: nat): Option<NameAndText> {
    var p := SkipBlanks(args, 0);
    var q := SkipWord(args, p);
    var r := SkipBlanks(args, q);
    if p == |args| then None
    else if q - p == 0 || q - p >= nameSize then None
    else if r == |args| then None
    else Some(NameAndText(args[p..q], args[r..]))
  }

  /** args is blanks, a name, at least one blank, and a text that starts at its first non-blank. */
  predicate Tokenised(args: Bytes, lead: Bytes, gap: Bytes, t: NameAndText) {
    && args == lead + t.name + gap + t.text
    && AllBlank(lead) && AllBlank(gap) && NoBlank(t.name)
    && t.name != [] && gap != [] && t.text != [] && !IsBlank(t.text[0])
  }

  lemma SplitSound(args: Bytes, nameSize: nat)
    requires SplitArgs(args, nameSize).Some?
    ensures var t := SplitArgs(args, nameSize).value;
            && |t.name| < nameSize
            && exists lead, gap :: Tokenised(args, lead, gap, t)
  {
    var p := SkipBlanks(args, 0);
    var q := SkipWord(args, p);
    var r := SkipBlanks(args, q);
    var t := SplitArgs(args, nameSize).value;
    assert args == args[0..p] + args[p..q] + args[q..r] + args[r..];
    assert Tokenised(args, args[0..p], args[q..r], t);
  }

  lemma {:induction false} SkipBlanksLands(s: Bytes, i: nat, j: nat)
    requires i <= j <= |s| && AllBlank(s[i..j]) && (j < |s| ==> !IsBlank(s[j]))
    ensures SkipBlanks(s, i) == j
    decreases j - i
  {
    if i < j {
      assert s[i..j][0] == s[i] && s[i..j][1..] == s[i + 1..j];
      SkipBlanksLands(s, i + 1, j);
    }
  }

  lemma {:induction false} SkipWordLands(s: Bytes, i: nat, j: nat)
    requires i <= j <= |s| && NoBlank(s[i..j]) && (j < |s| ==> IsBlank(s[j]))
    ensures SkipWord(s, i) == j
    decreases j - i
  {
    if i < j {
      assert s[i..j][0] == s[i] && s[i..j][1..] == s[i + 1..j];
      SkipWordLands(s, i + 1, j);
    }
  }

  /** Every tokenisation with a short enough name is found, so the split is the only one. */
  lemma SplitComplete(args: Bytes, nameSize: nat, lead: Bytes, gap: Bytes, t: NameAndText)
    requires Tokenised(args, lead, gap, t)
    ensures SplitArgs(args, nameSize) == if |t.name| < nameSize then Some(t) else None
  {
    var p := |lead|;
    var q := p + |t.name|;
    var r := q + |gap|;
    assert args[0..p] == lead && args[p] == t.name[0];
    SkipBlanksLands(args, 0, p);
    assert args[p..q] == t.name && args[q] == gap[0];
    SkipWordLands(args, p, q);
    assert args[q..r] == gap && args[r] == t.text[0];
    SkipBlanksLands(args, q, r);
    assert args[r..] == t.text;
  }

  /** commands_parse_priv and commands_parse_gmsg. */
  method ParseNameAndText(line: Bytes, skip: nat, nameSize: nat) returns (r: Option<NameAndText>)
    requires skip <= |line|
    ensures r == SplitArgs(line[skip..], nameSize)
  {
    var args := line[skip..];
    var p := WalkBlanks(args, 0);
    if p == |args| {
      return None;
    }
    var start := p;
    p := WalkWord(args, p);
    var nameLen := p - start;
    if nameLen == 0 || nameLen >= nameSize {
      return None;
    }
    var name := args[start..p];
    p := WalkBlanks(args, p);
    if p == |args| {
      return None;
    }
    return Some(NameAndText(name, args[p..]));
  }

  /** commands_parse_sendfile: the text is a file name and limited too. */
  function SplitSendfile(args: Bytes): Option<NameAndText> {
    match SplitArgs(args, MAX_USERNAME_LEN)
    case None => None
    case Some(t) => if |t.text| >= MAX_FILENAME_LEN then None else Some(t)
  }

  lemma SendfileParts(line: Bytes, skip: nat)
    requires NulFree(line) && skip <= |line| && SplitSendfile(line[skip..]).Some?
    ensures var t := SplitSendfile(line[skip..]).value;
            NulFree(t.name) && NulFree(t.text) && t.name != [] && t.text != []
  {
  }

  method ParseSendfile(line: Bytes, skip: nat) returns (r: Option<NameAndText>)
    requires skip <= |line|
    ensures r == SplitSendfile(line[skip..])
    ensures r.Some? ==> |r.value.name| < MAX_USERNAME_LEN && |r.value.text| < MAX_FILENAME_LEN
  {
    r := ParseNameAndText(line, skip, MAX_USERNAME_LEN);
    if r.Some? && |r.value.text| >= MAX_FILENAME_LEN {
      r := None;
    }
  }

  // ---- a transfer id ----

  /** commands_parse_tid_arg. */
  function TidArg(arg: Bytes): Option<u32> {
    match ParseU64(arg[SkipBlanks(arg, 0)..])
    case None => None
    case Some(v) => if v > U32_MAX then None else Some(v)
  }

  /** Exactly the blank-prefixed digit strings worth at most 2^32 - 1 are accepted, with their value. */
  lemma TidArgExact(lead: Bytes, word: Bytes)
    requires AllBlank(lead) && (word != [] ==> !IsBlank(word[0]))
    ensures TidArg(lead + word) ==
            if word != [] && AllDigits(word) && Value(word) <= U32_MAX then Some(Value(word)) else None
  {
    var arg := lead + word;
    assert arg[0..|lead|] == lead;
    SkipBlanksLands(arg, 0, |lead|);
    assert arg[|lead|..] == word;
  }

  method ParseTidArg(arg: Bytes) returns (r: Option<u32>)
    ensures r == TidArg(arg)
  {
    var p := WalkBlanks(arg, 0);
    if p == |arg| {
      return None;
    }
    assert arg[p..|arg|] == arg[p..];
    var v := ParseU64Range(arg, p, |arg|);
    if v.None? || v.value > U32_MAX {
      return None;
    }
    return Some(v.value);
  }

  // ---- what a line means ----

  datatype Intent =
    | Nothing
    | Quit
    | Help
    | Login
    | Usage
    | Unknown
    | Users
    | Text(msgType: byte, text: Bytes)
    | Pair(msgType: byte, name: Bytes, message: Bytes)
    | SendFile(target: Bytes, filename: Bytes)
    | Accept(tid: u32)
    | Reject(tid: u32)
    | Cancel(tid: u32)

  /** line is the command alone or the command and a blank. */
  predicate HasCommand(line: Bytes, command: Bytes) {
    command <= line && (|line| == |command| || IsBlank(line[|command|]))
  }

  function PairIntent(msgType: byte, args: Bytes, nameSize: nat): Intent {
    match SplitArgs(args, nameSize)
    case None => Usage
    case Some(t) => Pair(msgType, t.name, t.text)
  }

  function SingleName(msgType: byte, args: Bytes): Intent {
    var name := args[SkipBlanks(args, 0)..];
    if name == [] || |name| >= MAX_GROUP_NAME_LEN then Usage else Text(msgType, name)
  }

  function TidIntent(args: Bytes, make: u32 -> Intent): Intent {
    match TidArg(args)
    case None => Usage
    case Some(tid) => make(tid)
  }

  /** The file-transfer commands. */
  function UnderstandTransfer(line: Bytes): (u: Intent)
    ensures !u.Text? && !u.Pair? && !u.Users?
  {
    if HasCommand(line, Ascii("/sendfile")) then
      match SplitSendfile(line[9..])
      case None => Usage
      case Some(t) => SendFile(t.name, t.text)
    else if HasCommand(line, Ascii("/accept")) then TidIntent(line[7..], (tid: u32) => Accept(tid))
    else if HasCommand(line, Ascii("/reject")) then TidIntent(line[7..], (tid: u32) => Reject(tid))
    else if HasCommand(line, Ascii("/cancel")) then TidIntent(line[7..], (tid: u32) => Cancel(tid))
    else Unknown
  }

  /** The group commands, and what is tried after them. */
  function UnderstandGroup(line: Bytes): Intent {
    if HasCommand(line, Ascii("/gcreate")) then SingleName(MSG_GCREATE, line[8..])
    else if HasCommand(line, Ascii("/gjoin")) then SingleName(MSG_GJOIN, line[6..])
    else if HasCommand(line, Ascii("/gleave")) then SingleName(MSG_GLEAVE, line[7..])
    else if HasCommand(line, Ascii("/gmsg")) then PairIntent(MSG_GMSG, line[5..], MAX_GROUP_NAME_LEN)
    else UnderstandTransfer(line)
  }

  /** commands_handle_line up to the frame it builds. */
  function Understand(line: Bytes): Intent {
    if line == [] then Nothing
    else if line[0] != COMMAND_MARK then Text(MSG_CHAT, line)
    else if line == Ascii("/quit") then Quit
    else if line == Ascii("/help") then Help
    else if line == Ascii("/login") then Login
    else if HasCommand(line, Ascii("/priv")) then PairIntent(MSG_PRIV, line[5..], MAX_USERNAME_LEN)
    else if line == Ascii("/users") then Users
    else UnderstandGroup(line)
  }

  /** The frame an intent asks for, when it is one of the chat commands. */
  function FrameOf(intent: Intent): Option<Frame> {
    match intent
    case Users => Some(Frame(MSG_USERS, []))
    case Text(msgType, text) => Some(Frame(msgType, CString(text)))
    case Pair(msgType, name, message) => Some(Frame(msgType, Text2Payload(name, message)))
    case _ => None
  }

  /** The parts the peer reads back from a payload: everything up to each NUL. */
  function Parts(payload: Bytes): seq<Bytes>
    decreases |payload|
  {
    var k := NulIndex(payload);
    if k == |payload| then [] else [payload[..k]] + Parts(payload[k + 1..])
  }

  lemma PartsOfCString(part: Bytes, rest: Bytes)
    requires NulFree(part)
    ensures Parts(CString(part) + rest) == [part] + Parts(rest)
  {
    var s := CString(part) + rest;
    NulIndexLands(part, rest);
    assert s == part + [0] + rest;
    assert s[..|part|] == part && s[|part| + 1..] == rest;
  }

  function PartsOf(intent: Intent): seq<Bytes> {
    match intent
    case Text(_, text) => [text]
    case Pair(_, name, message) => [name, message]
    case _ => []
  }

  /** The parts of an intent are C strings that together fit a line of n bytes. */
  predicate PartsWithin(u: Intent, n: nat) {
    match u
    case Text(_, text) => NulFree(text) && |text| <= n
    case Pair(_, name, message) => NulFree(name) && NulFree(message) && |name| + |message| + 2 <= n
    case _ => true
  }

  lemma PairPartsWithin(line: Bytes, skip: nat, msgType: byte, nameSize: nat)
    requires NulFree(line) && 0 < skip <= |line|
    ensures PartsWithin(PairIntent(msgType, line[skip..], nameSize), |line|)
  {
  }

  lemma GroupParts(line: Bytes)
    requires NulFree(line)
    ensures PartsWithin(UnderstandGroup(line), |line|)
  {
  }

  lemma IntentParts(line: Bytes)
    requires NulFree(line)
    ensures PartsWithin(Understand(line), |line|)
  {
    if HasCommand(line, Ascii("/priv")) {
      PairPartsWithin(line, 5, MSG_PRIV, MAX_USERNAME_LEN);
    }
    GroupParts(line);
  }

  lemma FramePartsSurvive(u: Intent)
    requires FrameOf(u).Some? && PartsWithin(u, MAX_MESSAGE_LEN)
    ensures Parts(FrameOf(u).value.payload) == PartsOf(u)
  {
    match u
    case Text(_, text) =>
      PartsOfCString(text, []);
      assert CString(text) + [] == CString(text);
    case Pair(_, name, message) =>
      PartsOfCString(name, CString(message));
      PartsOfCString(message, []);
      assert CString(message) + [] == CString(message);
    case Users =>
  }

  /** Every line the input loop lets through fits its frame: the payload length is exact in 16 bits, and decoding the
      frame gives back exactly the parts the line was split into. */
  lemma LineSurvivesTheWire(line: Bytes)
    requires NulFree(line) && |line| < MAX_MESSAGE_LEN
    ensures var f := FrameOf(Understand(line));
            f.Some? ==>
              && Fits(f.value)
              && Parse(Encode(f.value)) == Got(f.value, |Encode(f.value)|)
              && Parts(f.value.payload) == PartsOf(Understand(line))
  {
    var u := Understand(line);
    IntentParts(line);
    if FrameOf(u).Some? {
      var f := FrameOf(u).value;
      ParseEncoded(f, []);
      assert Encode(f) + [] == Encode(f);
      FramePartsSurvive(u);
    }
  }

  /** The line becomes one frame of this type, whose payload is these texts, each with its NUL. */
  predicate Says(line: Bytes, msgType: byte, texts: seq<Bytes>) {
    var f := FrameOf(Understand(line));
    f.Some? && f.value.msgType == msgType && Parts(f.value.payload) == texts
  }

  /** The line becomes no frame of this kind. */
  predicate Silent(line: Bytes) {
    FrameOf(Understand(line)).None?
  }

  // ---- building the frame ----

  /** The exact size of the frame buffer each command declares. */
  function FrameBuffer(u: Intent): nat {
    match u
    case Text(msgType, _) =>
      if msgType == MSG_CHAT then HEADER_SIZE + MAX_MESSAGE_LEN + 1 else HEADER_SIZE + MAX_GROUP_NAME_LEN
    case Pair(_, _, _) => HEADER_SIZE + MAX_MESSAGE_LEN + MAX_USERNAME_LEN + 1
    case _ => HEADER_SIZE
  }

  lemma SingleNameShort(line: Bytes)
    ensures var u := Understand(line);
            u.Text? && u.msgType != MSG_CHAT ==> |u.text| < MAX_GROUP_NAME_LEN
  {
  }

  /** One builder call into the command's own frame buffer. */
  method BuildFor(intent: Intent) returns (frame: Bytes)
    requires FrameOf(intent).Some? && Fits(FrameOf(intent).value)
    requires HEADER_SIZE + |FrameOf(intent).value.payload| <= FrameBuffer(intent)
    ensures frame == Encode(FrameOf(intent).value)
  {
    var out := new byte[FrameBuffer(intent)];
    var n;
    match intent {
      case Text(msgType, text) =>
        n := BuildText1(msgType, text, out);
        CutIsEncoding(msgType, CString(text));
      case Pair(msgType, name, message) =>
        n := BuildText2(msgType, name, message, out);
        CastIsEncoding(msgType, Text2Payload(name, message));
      case Users =>
        n := BuildFrame(MSG_USERS, [], 0, out);
    }
    PrefixOf(out[..], Encode(FrameOf(intent).value));
    frame := out[..n];
  }

  /** commands_handle_line for the chat commands: at most one frame, never refused for lack of room. */
  method HandleLine(line: Bytes) returns (intent: Intent, frame: Option<Bytes>)
    requires NulFree(line) && |line| < MAX_MESSAGE_LEN
    ensures intent == Understand(line)
    ensures frame.Some? <==> FrameOf(intent).Some?
    ensures frame.Some? ==> Parse(frame.value) == Got(FrameOf(intent).value, |frame.value|)
    ensures frame.Some? ==> Parts(FrameOf(intent).value.payload) == PartsOf(intent)
    ensures frame.None? <==> Silent(line)
    ensures frame.Some? ==>
              forall msgType, texts :: Says(line, msgType, texts) ==>
                var f := Parse(frame.value).frame;
                f.msgType == msgType && Parts(f.payload) == texts
  {
    intent := Understand(line);
    LineSurvivesTheWire(line);
    IntentParts(line);
    SingleNameShort(line);
    if FrameOf(intent).None? {
      return intent, None;
    }
    var d := BuildFor(intent);
    return intent, Some(d);
  }

  // ---- reading the line ----

  function Trimmed(s: Bytes): (t: Bytes)
    ensures t <= s
    ensures t != [] ==> t[|t| - 1] != LF && t[|t| - 1] != CR
  {
    if s != [] && (s[|s| - 1] == LF || s[|s| - 1] == CR) then Trimmed(s[..|s| - 1]) else s
  }

  /** Exactly the line ends at the end are cut. */
  lemma {:induction false} TrimmedExactly(body: Bytes, ends: Bytes)
    requires forall i :: 0 <= i < |ends| ==> ends[i] == 0x0A || ends[i] == 0x0D
    requires body != [] ==> body[|body| - 1] != 0x0A && body[|body| - 1] != 0x0D
    ensures Trimmed(body + ends) == body
    decreases |ends|
  {
    var s := body + ends;
    if ends == [] {
      assert s == body;
    } else {
      assert s[..|s| - 1] == body + ends[..|ends| - 1];
      TrimmedExactly(body, ends[..|ends| - 1]);
    }
  }

  /** utils_trim_newline: overwrite trailing line ends with NUL. */
  method TrimNewline(str: array<byte>)
    requires NulIndex(str[..]) < str.Length
    modifies str
    ensures NulIndex(str[..]) < str.Length
    ensures CStr(str[..]) == Trimmed(old(CStr(str[..])))
  {
    ghost var s := CStr(str[..]);
    var len := NulIndex(str[..]);
    assert s[..len] == s;
    while len > 0 && (str[len - 1] == LF || str[len - 1] == CR)
      invariant len <= |s| && len < str.Length && str[len] == 0
      invariant forall i :: 0 <= i < len ==> str[i] == s[i]
      invariant Trimmed(s) == Trimmed(s[..len])
    {
      assert s[..len][..len - 1] == s[..len - 1];
      str[len - 1] := 0;
      len := len - 1;
    }
    assert str[..][..len] == s[..len];
    TerminatedAt(str[..], len);
  }

  /** app_handle_stdin: a line without its line end was cut by fgets and is dropped. */
  function InputLine(raw: Bytes): Option<Bytes> {
    if LF !in raw then None else Some(Trimmed(raw))
  }

  /** What was typed before the line end is what the command sees. */
  lemma InputLineExactly(body: Bytes, ends: Bytes)
    requires forall i :: 0 <= i < |ends| ==> ends[i] == 0x0A || ends[i] == 0x0D
    requires body != [] ==> body[|body| - 1] != 0x0A && body[|body| - 1] != 0x0D
    requires 0x0A !in body
    ensures InputLine(body + ends) == if 0x0A in ends then Some(body) else None
  {
    TrimmedExactly(body, ends);
    if LF in ends {
      var i :| 0 <= i < |ends| && ends[i] == LF;
      assert (body + ends)[|body| + i] == LF;
    }
  }

  /** fgets with a 65536-byte buffer, then the trimming, can only produce lines the frames have room for. */
  lemma InputLineFits(raw: Bytes)
    requires NulFree(raw) && |raw| <= MAX_MESSAGE_LEN
    requires forall i :: 0 <= i < |raw| - 1 ==> raw[i] != LF
    ensures InputLine(raw).Some? ==> NulFree(InputLine(raw).value) && |InputLine(raw).value| < MAX_MESSAGE_LEN
    ensures InputLine(raw).None? <==> raw == [] || raw[|raw| - 1] != LF
  {
  }
}
