/** The payload of an INIT frame: file_parse_init_payload of src/file.c against protocol_build_text3. */
module InitFrame {
  import opened Bytes
  import opened Decimal
  import opened Protocol

  const SENDER_SIZE: nat := 32
  const FILENAME_SIZE: nat := 256

  datatype InitFields = InitFields(sender: Bytes, filename: Bytes, size: u64)

  /** A field up to its NUL, and what follows. */
  datatype Field = Field(text: Bytes, rest: Bytes)

  function NextField(p: Bytes): Option<Field> {
    var k := NulIndex(p);
    if k == |p| then None else Some(Field(p[..k], p[k + 1..]))
  }

  /** file_parse_init_payload; bytes behind the third NUL are ignored. */
  function ParseInit(p: Bytes): Option<InitFields> {
    match NextField(p)
    case None => None
    case Some(f1) =>
      match NextField(f1.rest)
      case None => None
      case Some(f2) =>
        match NextField(f2.rest)
        case None => None
        case Some(f3) =>
          if f1.text == [] || |f1.text| >= SENDER_SIZE then None
          else if f2.text == [] || |f2.text| >= FILENAME_SIZE then None
          else if f3.text == [] then None
          else
            match ParseU64(f3.text)
            case None => None
            case Some(size) => Some(InitFields(f1.text, f2.text, size))
  }

  /** Three NUL-terminated fields and possibly more. */
  predicate Layout(p: Bytes, sender: Bytes, filename: Bytes, digits: Bytes, junk: Bytes) {
    && NulFree(sender) && NulFree(filename) && NulFree(digits)
    && p == CString(sender) + (CString(filename) + (CString(digits) + junk))
  }

  predicate FieldsInBound(sender: Bytes, filename: Bytes) {
    0 < |sender| < SENDER_SIZE && 0 < |filename| < FILENAME_SIZE
  }

  lemma NextFieldOf(text: Bytes, rest: Bytes)
    requires NulFree(text)
    ensures NextField(CString(text) + rest) == Some(Field(text, rest))
  {
    var p := CString(text) + rest;
    NulIndexLands(text, rest);
    assert p == text + [0] + rest;
    assert p[..|text|] == text && p[|text| + 1..] == rest;
  }

  lemma NextFieldInverse(p: Bytes)
    requires NextField(p).Some?
    ensures var f := NextField(p).value;
            NulFree(f.text) && p == CString(f.text) + f.rest
  {
  }

  /** On a payload of three fields the parser's answer depends on the fields alone, and is exact in all of them. */
  lemma ParseInitExact(p: Bytes, sender: Bytes, filename: Bytes, digits: Bytes, junk: Bytes)
    requires Layout(p, sender, filename, digits, junk)
    ensures ParseInit(p) ==
            if FieldsInBound(sender, filename) && ParseU64(digits).Some?
            then Some(InitFields(sender, filename, ParseU64(digits).value)) else None
  {
    NextFieldOf(sender, CString(filename) + (CString(digits) + junk));
    NextFieldOf(filename, CString(digits) + junk);
    NextFieldOf(digits, junk);
  }

  /** Nothing else is accepted. */
  lemma ParseInitSound(p: Bytes) returns (digits: Bytes, junk: Bytes)
    requires ParseInit(p).Some?
    ensures var f := ParseInit(p).value;
            && Layout(p, f.sender, f.filename, digits, junk) && FieldsInBound(f.sender, f.filename)
            && ParseU64(digits) == Some(f.size)
  {
    NextFieldInverse(p);
    var f1 := NextField(p).value;
    NextFieldInverse(f1.rest);
    var f2 := NextField(f1.rest).value;
    NextFieldInverse(f2.rest);
    var f3 := NextField(f2.rest).value;
    digits, junk := f3.text, f3.rest;
  }

  /** Payloads of four bytes are routed as control frames; no INIT is lost that way. */
  lemma ParseInitLength(p: Bytes)
    requires ParseInit(p).Some?
    ensures |p| >= 6
  {
  }

  function InitPayload(name: Bytes, filename: Bytes, size: u64): Bytes {
    Text3Payload(name, filename, Digits(size))
  }

  lemma InitPayloadFits(name: Bytes, filename: Bytes, size: u64)
    requires |name| < SENDER_SIZE && |filename| < FILENAME_SIZE
    ensures |InitPayload(name, filename, size)| <= SENDER_SIZE + FILENAME_SIZE + 21
  {
    assert Pow10(10) == 100_0000_0000;
    assert Pow10(20) == 1_0000_0000_0000_0000_0000;
    DigitsLength(size, 20);
  }

  /** From protocol_build_text3 through protocol_parse to file_parse_init_payload: the same triple. */
  lemma InitRoundTrip(name: Bytes, filename: Bytes, size: u64)
    requires NulFree(name) && NulFree(filename) && FieldsInBound(name, filename)
    ensures var p := InitPayload(name, filename, size);
            && ParseInit(p) == Some(InitFields(name, filename, size))
            && Parse(CastFrame(MSG_FILE_INIT, p)) == Got(Frame(MSG_FILE_INIT, p), HEADER_SIZE + |p|)
  {
    var p := InitPayload(name, filename, size);
    PrintThenParse(size);
    assert p == CString(name) + (CString(filename) + (CString(Digits(size)) + []));
    ParseInitExact(p, name, filename, Digits(size), []);
    InitPayloadFits(name, filename, size);
    CastFrameExact(MSG_FILE_INIT, p);
  }
}
