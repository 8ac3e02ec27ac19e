/**
 * The SSHD `include` text: systemHandler.js prints it line by line, configManager.js reads it back.
 */
module Sshd {
  import opened Prelude
  import opened Text

  /** The SSHD properties that travel inside the include text. */
  datatype Settings = Settings(
    ciphers: Option<seq<string>>,
    kexAlgorithms: Option<seq<string>>,
    loginGraceTime: Option<Number>,
    macs: Option<seq<string>>,
    maxAuthTries: Option<Number>,
    maxStartups: Option<string>,
    protocol: Option<Number>)

  const ABSENT := Settings(None, None, None, None, None, None, None)

  /** JavaScript truthiness of an optional number: absent, 0 and NaN are falsy. */
  predicate Truthy(n: Option<Number>) { n.Some? && n.value.Int? && n.value.value != 0 }

  // ---------------------------------------------------------------- printing

  /** The text before the newline of a printed template literal. */
  function Line(keyword: string, argument: string): string
  {
    keyword + " " + argument
  }

  function ListLine(keyword: string, items: Option<seq<string>>): seq<string>
  {
    if items.Some? then [Line(keyword, Join(items.value, ","))] else []
  }

  function NumberLine(keyword: string, n: Option<Number>): seq<string>
  {
    if Truthy(n) then [Line(keyword, IntText(n.value.value))] else []
  }

  function StringLine(keyword: string, s: Option<string>): seq<string>
  {
    if s.Some? && s.value != "" then [Line(keyword, s.value)] else []
  }

  /** The lines of the include text, in the order they are printed. */
  function Lines(s: Settings): seq<string>
  {
    []
    + ListLine("Ciphers", s.ciphers)
    + ListLine("KexAlgorithms", s.kexAlgorithms)
    + NumberLine("LoginGraceTime", s.loginGraceTime)
    + ListLine("MACs", s.macs)
    + NumberLine("MaxAuthTries", s.maxAuthTries)
    + StringLine("MaxStartups", s.maxStartups)
    + NumberLine("Protocol", s.protocol)
  }

  function Terminated(lines: seq<string>): string
  {
    if lines == [] then "" else lines[0] + "\n" + Terminated(lines[1..])
  }

  lemma {:induction false} TerminatedConcat(a: seq<string>, b: seq<string>)
    ensures Terminated(a + b) == Terminated(a) + Terminated(b)
  {
    if a == [] {
      assert a + b == b;
    } else {
      assert (a + b)[1..] == a[1..] + b;
      TerminatedConcat(a[1..], b);
    }
  }

  lemma TerminatedOne(line: string)
    ensures Terminated([line]) == line + "\n"
  {
    assert Terminated([line][1..]) == "";
  }

  function OptionalText(line: seq<string>): string
  {
    if line == [] then "" else line[0] + "\n"
  }

  lemma AppendOptional(before: seq<string>, line: seq<string>)
    requires |line| <= 1
    ensures Terminated(before + line) == Terminated(before) + OptionalText(line)
  {
    TerminatedConcat(before, line);
    if line != [] {
      assert line == [line[0]];
      TerminatedOne(line[0]);
    }
  }

  method AppendList(text: string, keyword: string, items: Option<seq<string>>, ghost before: seq<string>)
    returns (longer: string)
    requires text == Terminated(before)
    ensures longer == Terminated(before + ListLine(keyword, items))
  {
    longer := text;
    if items.Some? {
      longer := longer + (Line(keyword, Join(items.value, ",")) + "\n");
    }
    AppendOptional(before, ListLine(keyword, items));
  }

  method AppendNumber(text: string, keyword: string, n: Option<Number>, ghost before: seq<string>)
    returns (longer: string)
    requires text == Terminated(before)
    ensures longer == Terminated(before + NumberLine(keyword, n))
  {
    longer := text;
    if Truthy(n) {
      longer := longer + (Line(keyword, IntText(n.value.value)) + "\n");
    }
    AppendOptional(before, NumberLine(keyword, n));
  }

  method AppendString(text: string, keyword: string, word: Option<string>, ghost before: seq<string>)
    returns (longer: string)
    requires text == Terminated(before)
    ensures longer == Terminated(before + StringLine(keyword, word))
  {
    longer := text;
    if word.Some? && word.value != "" {
      longer := longer + (Line(keyword, word.value) + "\n");
    }
    AppendOptional(before, StringLine(keyword, word));
  }

  /** systemHandler.js builds `includeString` by repeated concatenation, one optional line at a time. */
  method PrintInclude(sshd: Settings) returns (includeString: string)
    ensures includeString == Terminated(Lines(sshd))
  {
    includeString := "";
    ghost var l: seq<string> := [];
    includeString := AppendList(includeString, "Ciphers", sshd.ciphers, l);
    l := l + ListLine("Ciphers", sshd.ciphers);
    includeString := AppendList(includeString, "KexAlgorithms", sshd.kexAlgorithms, l);
    l := l + ListLine("KexAlgorithms", sshd.kexAlgorithms);
    includeString := AppendNumber(includeString, "LoginGraceTime", sshd.loginGraceTime, l);
    l := l + NumberLine("LoginGraceTime", sshd.loginGraceTime);
    includeString := AppendList(includeString, "MACs", sshd.macs, l);
    l := l + ListLine("MACs", sshd.macs);
    includeString := AppendNumber(includeString, "MaxAuthTries", sshd.maxAuthTries, l);
    l := l + NumberLine("MaxAuthTries", sshd.maxAuthTries);
    includeString := AppendString(includeString, "MaxStartups", sshd.maxStartups, l);
    l := l + StringLine("MaxStartups", sshd.maxStartups);
    includeString := AppendNumber(includeString, "Protocol", sshd.protocol, l);
  }

  // ---------------------------------------------------------------- reading back

  /** What one line of the include text does to the item; None when the code throws a TypeError. */
  function ApplyLine(s: Settings, line: string): Option<Settings>
  {
    var words := Split(line, " ");
    var argument := if |words| > 1 then Some(words[1]) else None;
    if words[0] in ["Ciphers", "MACs", "KexAlgorithms"] && argument.None? then None
    else match words[0]
      case "Ciphers" => Some(s.(ciphers := Some(Split(argument.value, ","))))
      case "MACs" => Some(s.(macs := Some(Split(argument.value, ","))))
      case "KexAlgorithms" => Some(s.(kexAlgorithms := Some(Split(argument.value, ","))))
      case "LoginGraceTime" => Some(s.(loginGraceTime := Some(ParseArgument(argument))))
      case "MaxAuthTries" => Some(s.(maxAuthTries := Some(ParseArgument(argument))))
      case "MaxStartups" => Some(s.(maxStartups := argument))
      case "Protocol" => Some(s.(protocol := Some(ParseArgument(argument))))
      case _ => Some(s)
  }

  function ParseArgument(argument: Option<string>): Number
  {
    if argument.None? then NaN else ParseInt(argument.value)
  }

  function ApplyLines(s: Settings, lines: seq<string>): Option<Settings>
    decreases |lines|
  {
    if lines == [] then Some(s)
    else
      var next := ApplyLine(s, lines[0]);
      if next.None? then None else ApplyLines(next.value, lines[1..])
  }

  function ReadInclude(text: string): Option<Settings>
  {
    ApplyLines(ABSENT, Split(text, "\n"))
  }

  /** The item that configManager.js patches in place. */
  class ConfigItem {
    var includeText: string
    var settings: Settings

    constructor (text: string)
      ensures includeText == text && settings == ABSENT
    {
      includeText, settings := text, ABSENT;
    }

    /** patchSSHD, guarded as its caller guards it; `ok` is false when a TypeError escapes. */
    method PatchSSHD() returns (ok: bool)
      requires settings == ABSENT
      modifies this`settings
      ensures ok <==> ReadInclude(includeText).Some?
      ensures ok ==> Some(settings) == ReadInclude(includeText)
    {
      var includes := Split(includeText, "\n");
      for i := 0 to |includes|
        invariant ApplyLines(settings, includes[i..]) == ApplyLines(ABSENT, includes)
      {
        var line := includes[i];
        assert includes[i..][1..] == includes[i + 1..];
        var words := Split(line, " ");
        if words[0] in ["Ciphers", "MACs", "KexAlgorithms"] && |words| < 2 {
          return false;
        }
        if words[0] == "Ciphers" {
          settings := settings.(ciphers := Some(Split(words[1], ",")));
        }
        if words[0] == "MACs" {
          settings := settings.(macs := Some(Split(words[1], ",")));
        }
        if words[0] == "KexAlgorithms" {
          settings := settings.(kexAlgorithms := Some(Split(words[1], ",")));
        }
        if words[0] == "LoginGraceTime" {
          settings := settings.(loginGraceTime := Some(if |words| > 1 then ParseInt(words[1]) else NaN));
        }
        if words[0] == "MaxAuthTries" {
          settings := settings.(maxAuthTries := Some(if |words| > 1 then ParseInt(words[1]) else NaN));
        }
        if words[0] == "MaxStartups" {
          settings := settings.(maxStartups := if |words| > 1 then Some(words[1]) else None);
        }
        if words[0] == "Protocol" {
          settings := settings.(protocol := Some(if |words| > 1 then ParseInt(words[1]) else NaN));
        }
      }
      assert includes[|includes|..] == [];
      return true;
    }
  }

  // ---------------------------------------------------------------- the round trip

  predicate CleanText(s: string) { ' ' !in s && '\n' !in s }

  predicate CleanList(items: Option<seq<string>>)
  {
    items.Some? ==> items.value != [] && forall i <- items.value :: CleanText(i) && ',' !in i
  }

  predicate CleanNumber(n: Option<Number>) { n.Some? ==> n.value.Int? && n.value.value != 0 }

  predicate CleanString(s: Option<string>) { s.Some? ==> s.value != "" && CleanText(s.value) }

  /** Lists are non-empty with separator-free items, numbers are non-zero, maxStartups is one non-empty word. */
  predicate Clean(s: Settings)
  {
    && CleanList(s.ciphers) && CleanList(s.kexAlgorithms) && CleanList(s.macs)
    && CleanNumber(s.loginGraceTime) && CleanNumber(s.maxAuthTries) && CleanNumber(s.protocol)
    && CleanString(s.maxStartups)
  }

  lemma {:induction false} ApplyConcat(s: Settings, a: seq<string>, b: seq<string>)
    requires ApplyLines(s, a).Some?
    ensures ApplyLines(s, a + b) == ApplyLines(ApplyLines(s, a).value, b)
    decreases |a|
  {
    if a == [] {
      assert a + b == b;
    } else {
      assert (a + b)[1..] == a[1..] + b;
      ApplyConcat(ApplyLine(s, a[0]).value, a[1..], b);
    }
  }

  predicate OneLineEach(lines: seq<string>)
  {
    forall l <- lines :: '\n' !in l
  }

  lemma OneLineConcat(a: seq<string>, b: seq<string>)
    requires OneLineEach(a) && OneLineEach(b)
    ensures OneLineEach(a + b)
  {
  }

  lemma {:induction false} SplitTerminated(lines: seq<string>)
    requires OneLineEach(lines)
    ensures Split(Terminated(lines), "\n") == lines + [""]
  {
    if lines != [] {
      SplitPrefix(lines[0], Terminated(lines[1..]), "\n");
      SplitTerminated(lines[1..]);
    }
  }

  /** A keyword and one clean word split into exactly these two words. */
  lemma KeywordLine(keyword: string, word: string)
    requires CleanText(keyword) && CleanText(word)
    ensures Split(Line(keyword, word), " ") == [keyword, word]
    ensures '\n' !in Line(keyword, word)
  {
    SplitPrefix(keyword, word, " ");
    SplitAtom(word, " ");
  }

  lemma CleanListLine(keyword: string, items: Option<seq<string>>)
    requires CleanList(items) && items.Some? && CleanText(keyword)
    ensures Split(Line(keyword, Join(items.value, ",")), " ") == [keyword, Join(items.value, ",")]
    ensures Split(Join(items.value, ","), ",") == items.value
    ensures '\n' !in Line(keyword, Join(items.value, ","))
  {
    JoinChars(items.value, ",", ' ');
    JoinChars(items.value, ",", '\n');
    KeywordLine(keyword, Join(items.value, ","));
    SplitJoin(items.value, ",");
  }

  lemma CleanNumberLine(keyword: string, n: Option<Number>)
    requires Truthy(n) && CleanText(keyword)
    ensures Split(Line(keyword, IntText(n.value.value)), " ") == [keyword, IntText(n.value.value)]
    ensures ParseInt(IntText(n.value.value)) == n.value
    ensures '\n' !in Line(keyword, IntText(n.value.value))
  {
    ParseIntText(n.value.value);
    IntTextChars(n.value.value);
    KeywordLine(keyword, IntText(n.value.value));
  }

  /** Extending a run of lines by one optional line, once its effect on the settings is known. */
  lemma Extend(before: seq<string>, line: seq<string>, from: Settings, to: Settings)
    requires ApplyLines(ABSENT, before) == Some(from)
    requires if line == [] then to == from else |line| == 1 && ApplyLine(from, line[0]) == Some(to)
    ensures ApplyLines(ABSENT, before + line) == Some(to)
  {
    ApplyConcat(ABSENT, before, line);
    if line != [] {
      assert line[1..] == [];
    }
  }

  predicate ListKeyword(k: string) { k == "Ciphers" || k == "KexAlgorithms" || k == "MACs" }

  function WithList(s: Settings, k: string, items: Option<seq<string>>): Settings
    requires ListKeyword(k)
  {
    if k == "Ciphers" then s.(ciphers := items)
    else if k == "MACs" then s.(macs := items)
    else s.(kexAlgorithms := items)
  }

  lemma ReadList(before: seq<string>, s: Settings, k: string, items: Option<seq<string>>)
    requires ApplyLines(ABSENT, before) == Some(s) && ListKeyword(k) && CleanList(items)
    requires WithList(s, k, None) == s
    ensures ApplyLines(ABSENT, before + ListLine(k, items)) == Some(WithList(s, k, items))
    ensures OneLineEach(ListLine(k, items))
  {
    if items.Some? {
      CleanListLine(k, items);
      var line := Line(k, Join(items.value, ","));
      assert ApplyLine(s, line) == Some(WithList(s, k, items));
    }
    Extend(before, ListLine(k, items), s, WithList(s, k, items));
  }

  predicate NumberKeyword(k: string) { k == "LoginGraceTime" || k == "MaxAuthTries" || k == "Protocol" }

  function WithNumber(s: Settings, k: string, n: Option<Number>): Settings
    requires NumberKeyword(k)
  {
    if k == "LoginGraceTime" then s.(loginGraceTime := n)
    else if k == "MaxAuthTries" then s.(maxAuthTries := n)
    else s.(protocol := n)
  }

  lemma ReadNumber(before: seq<string>, s: Settings, k: string, n: Option<Number>)
    requires ApplyLines(ABSENT, before) == Some(s) && NumberKeyword(k) && CleanNumber(n)
    requires WithNumber(s, k, None) == s
    ensures ApplyLines(ABSENT, before + NumberLine(k, n)) == Some(WithNumber(s, k, n))
    ensures OneLineEach(NumberLine(k, n))
  {
    hide IntText, ParseInt, Split;
    if n.Some? {
      CleanNumberLine(k, n);
      var line := Line(k, IntText(n.value.value));
      assert ApplyLine(s, line) == Some(WithNumber(s, k, n));
    }
    Extend(before, NumberLine(k, n), s, WithNumber(s, k, n));
  }

  lemma ReadString(before: seq<string>, s: Settings, word: Option<string>)
    requires ApplyLines(ABSENT, before) == Some(s) && CleanString(word) && s.maxStartups.None?
    ensures ApplyLines(ABSENT, before + StringLine("MaxStartups", word)) == Some(s.(maxStartups := word))
    ensures OneLineEach(StringLine("MaxStartups", word))
  {
    if word.Some? {
      KeywordLine("MaxStartups", word.value);
      assert ApplyLine(s, Line("MaxStartups", word.value)) == Some(s.(maxStartups := word));
    }
    Extend(before, StringLine("MaxStartups", word), s, s.(maxStartups := word));
  }

  /** Reading the printed text of clean settings gives those settings: given fields return, absent ones stay absent. */
  lemma ReadPrinted(s: Settings)
    requires Clean(s)
    ensures ReadInclude(Terminated(Lines(s))) == Some(s)
  {
    var l1 := [] + ListLine("Ciphers", s.ciphers);
    var s1 := ABSENT.(ciphers := s.ciphers);
    ReadList([], ABSENT, "Ciphers", s.ciphers);
    OneLineConcat([], ListLine("Ciphers", s.ciphers));
    var l2 := l1 + ListLine("KexAlgorithms", s.kexAlgorithms);
    var s2 := s1.(kexAlgorithms := s.kexAlgorithms);
    ReadList(l1, s1, "KexAlgorithms", s.kexAlgorithms);
    OneLineConcat(l1, ListLine("KexAlgorithms", s.kexAlgorithms));
    var l3 := l2 + NumberLine("LoginGraceTime", s.loginGraceTime);
    var s3 := s2.(loginGraceTime := s.loginGraceTime);
    ReadNumber(l2, s2, "LoginGraceTime", s.loginGraceTime);
    OneLineConcat(l2, NumberLine("LoginGraceTime", s.loginGraceTime));
    var l4 := l3 + ListLine("MACs", s.macs);
    var s4 := s3.(macs := s.macs);
    ReadList(l3, s3, "MACs", s.macs);
    OneLineConcat(l3, ListLine("MACs", s.macs));
    ReadPrintedTail(l4, s4, s);
  }

  lemma ReadPrintedTail(l4: seq<string>, s4: Settings, s: Settings)
    requires ApplyLines(ABSENT, l4) == Some(s4) && OneLineEach(l4)
    requires CleanNumber(s.maxAuthTries) && CleanNumber(s.protocol) && CleanString(s.maxStartups)
    requires s4 == s.(maxAuthTries := None, maxStartups := None, protocol := None)
    ensures ReadInclude(Terminated(l4 + NumberLine("MaxAuthTries", s.maxAuthTries)
                                      + StringLine("MaxStartups", s.maxStartups)
                                      + NumberLine("Protocol", s.protocol))) == Some(s)
  {
    var l5 := l4 + NumberLine("MaxAuthTries", s.maxAuthTries);
    var s5 := s4.(maxAuthTries := s.maxAuthTries);
    ReadNumber(l4, s4, "MaxAuthTries", s.maxAuthTries);
    OneLineConcat(l4, NumberLine("MaxAuthTries", s.maxAuthTries));
    var l6 := l5 + StringLine("MaxStartups", s.maxStartups);
    var s6 := s5.(maxStartups := s.maxStartups);
    ReadString(l5, s5, s.maxStartups);
    OneLineConcat(l5, StringLine("MaxStartups", s.maxStartups));
    var l7 := l6 + NumberLine("Protocol", s.protocol);
    ReadNumber(l6, s6, "Protocol", s.protocol);
    OneLineConcat(l6, NumberLine("Protocol", s.protocol));
    ReadAll(l7, s);
  }

  lemma ReadAll(lines: seq<string>, s: Settings)
    requires ApplyLines(ABSENT, lines) == Some(s) && OneLineEach(lines)
    ensures ReadInclude(Terminated(lines)) == Some(s)
  {
    SplitTerminated(lines);
    Extend(lines, [""], s, s);
  }

  /** Printing drops falsy scalars: they are not printed at all. */
  function Printable(s: Settings): Settings
  {
    Settings(
      s.ciphers, s.kexAlgorithms,
      if Truthy(s.loginGraceTime) then s.loginGraceTime else None,
      s.macs,
      if Truthy(s.maxAuthTries) then s.maxAuthTries else None,
      if s.maxStartups == Some("") then None else s.maxStartups,
      if Truthy(s.protocol) then s.protocol else None)
  }

  predicate CleanRead(s: Settings)
  {
    && CleanList(s.ciphers) && CleanList(s.kexAlgorithms) && CleanList(s.macs)
    && (s.maxStartups.Some? ==> CleanText(s.maxStartups.value))
  }

  /** Whatever text is read, the lists and the word that come out contain no separator. */
  lemma LineIsClean(s: Settings, line: string)
    requires CleanRead(s) && '\n' !in line && ApplyLine(s, line).Some?
    ensures CleanRead(ApplyLine(s, line).value)
  {
    SplitParts(line, ' ');
    var words := Split(line, " ");
    if |words| > 1 {
      assert words[1] in words;
      SplitParts(words[1], ',');
    }
  }

  lemma {:induction false} ReadIsClean(s: Settings, lines: seq<string>)
    requires CleanRead(s) && OneLineEach(lines)
    ensures ApplyLines(s, lines).Some? ==> CleanRead(ApplyLines(s, lines).value)
    decreases |lines|
  {
    if lines != [] && ApplyLine(s, lines[0]).Some? {
      LineIsClean(s, lines[0]);
      hide ApplyLine, CleanRead;
      ReadIsClean(ApplyLine(s, lines[0]).value, lines[1..]);
    }
  }

  lemma LinesPrintable(s: Settings)
    ensures Lines(Printable(s)) == Lines(s)
  {
  }

  /** Settings that survive reading are clean themselves. */
  lemma SurvivorsClean(s: Settings)
    requires ReadInclude(Terminated(Lines(s))) == Some(s)
    ensures Clean(s)
  {
    hide Split, Lines, Terminated, ApplyLines;
    var text := Terminated(Lines(s));
    SplitParts(text, '\n');
    ReadIsClean(ABSENT, Split(text, "\n"));
    LinesPrintable(s);
    ReadPrinted(Printable(s));
  }

  /** The include text round-trips exactly for clean settings, and for no others. */
  lemma IncludeRoundTrip(s: Settings)
    ensures ReadInclude(Terminated(Lines(s))) == Some(s) <==> Clean(s)
  {
    if Clean(s) {
      ReadPrinted(s);
    }
    if ReadInclude(Terminated(Lines(s))) == Some(s) {
      SurvivorsClean(s);
    }
  }

  /** The keyword of every setting, and how its value is printed. */
  lemma PrintedKeywords()
    ensures Lines(ABSENT.(ciphers := Some(["a", "b"]))) == ["Ciphers a,b"]
    ensures Lines(ABSENT.(kexAlgorithms := Some(["a", "b"]))) == ["KexAlgorithms a,b"]
    ensures Lines(ABSENT.(loginGraceTime := Some(Int(7)))) == ["LoginGraceTime 7"]
    ensures Lines(ABSENT.(macs := Some(["a", "b"]))) == ["MACs a,b"]
    ensures Lines(ABSENT.(maxAuthTries := Some(Int(7)))) == ["MaxAuthTries 7"]
    ensures Lines(ABSENT.(maxStartups := Some("1:2:3"))) == ["MaxStartups 1:2:3"]
    ensures Lines(ABSENT.(protocol := Some(Int(7)))) == ["Protocol 7"]
  {
    assert Join(["b"], ",") == "b";
    assert ["a", "b"][1..] == ["b"];
    assert Join(["a", "b"], ",") == "a,b";
    assert Digits(7) == "7";
    assert IntText(7) == "7";
    hide Join, IntText, Digits;
    assert Line("Ciphers", "a,b") == "Ciphers a,b" && Line("KexAlgorithms", "a,b") == "KexAlgorithms a,b";
    assert Line("LoginGraceTime", "7") == "LoginGraceTime 7" && Line("MACs", "a,b") == "MACs a,b";
    assert Line("MaxAuthTries", "7") == "MaxAuthTries 7" && Line("MaxStartups", "1:2:3") == "MaxStartups 1:2:3";
    assert Line("Protocol", "7") == "Protocol 7";
  }
}
