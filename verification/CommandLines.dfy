/** What each command line means, said from the line's own text and the protocol's numbers. */
module CommandLines {
  import opened Bytes
  import opened Decimal
  import opened Commands

  // ---- one line, one command ----

  /** The command words of commands_handle_line. */
  const WORDS: set<string> := {
    "/quit", "/help", "/login", "/users", "/priv", "/gcreate", "/gjoin", "/gleave", "/gmsg", "/sendfile", "/accept",
    "/reject", "/cancel"}

  predicate Printable(word: string) {
    forall i :: 0 <= i < |word| ==> '!' <= word[i] <= '~'
  }

  lemma WordsPrintable(word: string)
    requires word in WORDS
    ensures Printable(word)
  {
  }

  /** A line is that of at most one command word. */
  lemma OneWord(line: Bytes, a: string, b: string)
    requires Printable(a) && Printable(b)
    requires HasCommand(line, Ascii(a)) && HasCommand(line, Ascii(b))
    ensures a == b
  {
    if |a| == |b| {
      forall i | 0 <= i < |a| ensures a[i] == b[i] {
        assert Ascii(a)[i] == line[i] == Ascii(b)[i];
      }
    }
  }

  /** The rest of a command line: nothing, or something that starts with a blank. */
  predicate Arguments(args: Bytes) {
    args != [] ==> IsBlank(args[0])
  }

  lemma WordOfLine(word: string, args: Bytes)
    requires word in WORDS && Arguments(args)
    ensures Printable(word)
    ensures var line := Ascii(word) + args;
            && HasCommand(line, Ascii(word)) && line[|word|..] == args
            && forall other :: other in WORDS && other != word ==>
                 !HasCommand(line, Ascii(other)) && line != Ascii(other)
  {
    WordsPrintable(word);
    var line := Ascii(word) + args;
    assert line[..|word|] == Ascii(word);
    forall other | other in WORDS && other != word ensures !HasCommand(line, Ascii(other)) && line != Ascii(other) {
      WordsPrintable(other);
      if HasCommand(line, Ascii(other)) {
        OneWord(line, word, other);
      }
    }
  }

  // ---- what goes out ----

  lemma TextSays(line: Bytes, msgType: byte, text: Bytes)
    requires Understand(line) == Text(msgType, text) && NulFree(text) && |text| <= MAX_MESSAGE_LEN
    ensures Says(line, msgType, [text])
  {
    FramePartsSurvive(Understand(line));
  }

  lemma PairSays(line: Bytes, msgType: byte, name: Bytes, text: Bytes)
    requires Understand(line) == Pair(msgType, name, text) && NulFree(name) && NulFree(text)
    requires |name| + |text| + 2 <= MAX_MESSAGE_LEN
    ensures Says(line, msgType, [name, text])
  {
    FramePartsSurvive(Understand(line));
  }

  /** Text without a leading slash is a chat message, type 0x02. */
  lemma ChatLine(line: Bytes)
    requires line != [] && line[0] != 0x2F && NulFree(line) && |line| <= MAX_MESSAGE_LEN
    ensures Understand(line) == Text(0x02, line) && Says(line, 0x02, [line])
  {
    TextSays(line, 0x02, line);
  }

  /** The group commands and their types. */
  function GroupType(word: string): byte {
    if word == "/gcreate" then 0x04 else if word == "/gjoin" then 0x05 else 0x06
  }

  lemma GroupDispatch(word: string, args: Bytes)
    requires word in {"/gcreate", "/gjoin", "/gleave"} && Arguments(args)
    ensures Understand(Ascii(word) + args) == SingleName(GroupType(word), args)
  {
    WordOfLine(word, args);
    var line := Ascii(word) + args;
    assert line[0] == Ascii(word)[0] == 0x2F;
    if word == "/gcreate" {
      assert Understand(line) == UnderstandGroup(line);
    } else if word == "/gjoin" {
      assert Understand(line) == UnderstandGroup(line);
    } else {
      assert Understand(line) == UnderstandGroup(line);
    }
  }

  /** /gcreate (0x04), /gjoin (0x05), /gleave (0x06): blanks, then the group name up to the end of the line, sent when
      it has 1 to 31 bytes. */
  lemma GroupLine(word: string, gap: Bytes, name: Bytes)
    requires word in {"/gcreate", "/gjoin", "/gleave"}
    requires AllBlank(gap) && (name != [] ==> gap != [] && !IsBlank(name[0]))
    ensures var line := Ascii(word) + gap + name;
            if 0 < |name| < 32 then
              && Understand(line) == Text(GroupType(word), name)
              && (NulFree(name) ==> Says(line, GroupType(word), [name]))
            else Understand(line) == Usage && Silent(line)
  {
    var args := gap + name;
    var line := Ascii(word) + gap + name;
    assert line == Ascii(word) + args;
    GroupDispatch(word, args);
    assert args[0..|gap|] == gap;
    SkipBlanksLands(args, 0, |gap|);
    assert args[|gap|..] == name;
    if 0 < |name| < 32 && NulFree(name) {
      TextSays(line, GroupType(word), name);
    }
  }

  function PairType(word: string): byte {
    if word == "/priv" then 0x03 else 0x07
  }

  lemma PairDispatch(word: string, args: Bytes)
    requires word in {"/priv", "/gmsg"} && Arguments(args)
    ensures Understand(Ascii(word) + args) == PairIntent(PairType(word), args, 32)
  {
    WordOfLine(word, args);
    var line := Ascii(word) + args;
    assert line[0] == Ascii(word)[0] == 0x2F;
    if word == "/gmsg" {
      assert Understand(line) == UnderstandGroup(line);
    }
  }

  lemma PairUnderstood(word: string, args: Bytes, lead: Bytes, gap: Bytes, t: NameAndText)
    requires word in {"/priv", "/gmsg"} && Tokenised(args, lead, gap, t) && lead != []
    ensures Understand(Ascii(word) + args) == if |t.name| < 32 then Pair(PairType(word), t.name, t.text) else Usage
  {
    assert args[0] == lead[0];
    PairDispatch(word, args);
    SplitComplete(args, 32, lead, gap, t);
  }

  /** /priv (0x03) and /gmsg (0x07): blanks, a name without blanks, blanks, a text, sent when the name is short
      enough. */
  lemma PairLine(word: string, args: Bytes, lead: Bytes, gap: Bytes, t: NameAndText)
    requires word in {"/priv", "/gmsg"} && Tokenised(args, lead, gap, t) && lead != []
    requires NulFree(args) && |args| < MAX_MESSAGE_LEN
    ensures var line := Ascii(word) + args;
            if |t.name| < 32 then
              Understand(line) == Pair(PairType(word), t.name, t.text) && Says(line, PairType(word), [t.name, t.text])
            else Understand(line) == Usage && Silent(line)
  {
    PairUnderstood(word, args, lead, gap, t);
    if |t.name| < 32 {
      PartsFree(args, lead, gap, t);
      PairSays(Ascii(word) + args, PairType(word), t.name, t.text);
    }
  }

  lemma PartsFree(args: Bytes, lead: Bytes, gap: Bytes, t: NameAndText)
    requires Tokenised(args, lead, gap, t) && lead != [] && NulFree(args)
    ensures NulFree(t.name) && NulFree(t.text) && |t.name| + |t.text| + 2 <= |args|
  {
    assert forall i :: 0 <= i < |t.name| ==> t.name[i] == args[|lead| + i];
    assert forall i :: 0 <= i < |t.text| ==> t.text[i] == args[|lead| + |t.name| + |gap| + i];
  }

  /** Without a short name and a text behind it nothing goes out. */
  lemma PairUsage(word: string, args: Bytes)
    requires word in {"/priv", "/gmsg"} && Arguments(args)
    requires forall lead, gap, t :: Tokenised(args, lead, gap, t) ==> |t.name| >= 32
    ensures Understand(Ascii(word) + args) == Usage && Silent(Ascii(word) + args)
  {
    PairDispatch(word, args);
    if SplitArgs(args, 32).Some? {
      SplitSound(args, 32);
    }
  }

  /** The words that stand alone; /users sends an empty frame of type 0x08. */
  lemma WordLine()
    ensures Understand([]) == Nothing
    ensures Understand(Ascii("/quit")) == Quit && Understand(Ascii("/help")) == Help
    ensures Understand(Ascii("/login")) == Login
    ensures Understand(Ascii("/users")) == Users && Says(Ascii("/users"), 0x08, [])
  {
    StandsAlone("/quit");
    StandsAlone("/help");
    StandsAlone("/login");
    StandsAlone("/users");
  }

  lemma StandsAlone(word: string)
    requires word in WORDS
    ensures Ascii(word)[0] == 0x2F
    ensures forall other :: other in WORDS && other != word ==>
              !HasCommand(Ascii(word), Ascii(other)) && Ascii(word) != Ascii(other)
  {
    WordOfLine(word, []);
    assert Ascii(word) + [] == Ascii(word);
  }

  // ---- the transfer commands ----

  lemma TransferDispatch(word: string, args: Bytes)
    requires word in {"/sendfile", "/accept", "/reject", "/cancel"} && Arguments(args)
    ensures Understand(Ascii(word) + args) == UnderstandTransfer(Ascii(word) + args)
  {
    WordOfLine(word, args);
    var line := Ascii(word) + args;
    assert line[0] == Ascii(word)[0] == 0x2F;
    assert Understand(line) == UnderstandGroup(line);
  }

  /** The argument parser of /sendfile finds exactly a name of 1 to 31 bytes and a file name of 1 to 255. */
  lemma SendfileSplit(args: Bytes, lead: Bytes, gap: Bytes, t: NameAndText)
    requires Tokenised(args, lead, gap, t)
    ensures SplitSendfile(args) == if |t.name| < 32 && |t.text| < 256 then Some(t) else None
  {
    SplitComplete(args, 32, lead, gap, t);
  }

  /** /sendfile: blanks, the receiver, blanks, the file name with all its blanks. */
  lemma SendfileLine(args: Bytes, lead: Bytes, gap: Bytes, t: NameAndText)
    requires Tokenised(args, lead, gap, t) && lead != []
    ensures Understand(Ascii("/sendfile") + args) ==
            if |t.name| < 32 && |t.text| < 256 then SendFile(t.name, t.text) else Usage
  {
    assert args[0] == lead[0];
    TransferDispatch("/sendfile", args);
    WordOfLine("/sendfile", args);
    SendfileSplit(args, lead, gap, t);
  }

  /** Without a short receiver and a short file name /sendfile does nothing. */
  lemma SendfileUsage(args: Bytes)
    requires Arguments(args)
    requires forall lead, gap, t :: Tokenised(args, lead, gap, t) ==> |t.name| >= 32 || |t.text| >= 256
    ensures Understand(Ascii("/sendfile") + args) == Usage
  {
    TransferDispatch("/sendfile", args);
    WordOfLine("/sendfile", args);
    if SplitSendfile(args).Some? {
      SplitSound(args, 32);
    }
  }

  function TidCommand(word: string, tid: u32): Intent {
    if word == "/accept" then Accept(tid) else if word == "/reject" then Reject(tid) else Cancel(tid)
  }

  /** /accept, /reject, /cancel: blanks and a decimal number of at most 2^32 - 1. */
  lemma TidLine(word: string, lead: Bytes, digits: Bytes)
    requires word in {"/accept", "/reject", "/cancel"}
    requires AllBlank(lead) && (digits != [] ==> lead != [] && !IsBlank(digits[0]))
    ensures Understand(Ascii(word) + (lead + digits)) ==
            if digits != [] && AllDigits(digits) && Value(digits) < 0x1_0000_0000
            then TidCommand(word, Value(digits)) else Usage
  {
    var args := lead + digits;
    TidArgExact(lead, digits);
    TransferDispatch(word, args);
    WordOfLine(word, args);
  }

  /** A word that stands alone is unknown with anything behind it. */
  lemma WordWithArguments(word: string, args: Bytes)
    requires word in {"/quit", "/help", "/login", "/users"} && args != [] && Arguments(args)
    ensures Understand(Ascii(word) + args) == Unknown && Silent(Ascii(word) + args)
  {
    WordOfLine(word, args);
    var line := Ascii(word) + args;
    assert line[0] == Ascii(word)[0] == 0x2F;
    assert |line| != |Ascii(word)|;
    assert Understand(line) == UnderstandGroup(line);
  }

  /** Every other line with a leading slash is refused as unknown, and sends nothing. */
  lemma UnknownLine(line: Bytes)
    requires line != [] && line[0] == 0x2F
    requires forall word :: word in WORDS ==> !HasCommand(line, Ascii(word))
    ensures Understand(line) == Unknown && Silent(line)
  {
    assert HasCommand(Ascii("/quit"), Ascii("/quit")) && HasCommand(Ascii("/help"), Ascii("/help"));
    assert HasCommand(Ascii("/login"), Ascii("/login")) && HasCommand(Ascii("/users"), Ascii("/users"));
    assert Understand(line) == UnderstandGroup(line);
  }
}
