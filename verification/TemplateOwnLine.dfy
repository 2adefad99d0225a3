/** Which lines the own-line pass removes, exactly, and what literal text is left
    (pkg/notify/template.go:282-360). */
module TemplateOwnLine {
  import opened Basics
  import opened Text
  import opened Template
  import opened TemplateMeaning

  predicate OneNewline(s: string) { HasNewline(s) && !HasNewline(AfterFirstLine(s)) }

  /** A lone tag's line is removed unless the line before it held a lone tag whose own
      removal took the only newline between the two. */
  predicate OwnAt(toks: seq<Token>, i: nat)
    requires i < |toks|
  {
    Alone(toks, i) && !(i >= 2 && OwnAt(toks, i - 2) && OneNewline(toks[i - 1].text))
  }

  /** Token k once the tags before `upto` are handled: its own mark, its line start when
      the tag before it is removed, its line end when the tag after it is. */
  function Settled(toks: seq<Token>, upto: nat, k: nat): Token
    requires k < |toks|
  {
    var marked := if k < upto && OwnAt(toks, k) then toks[k].(ownLine := true) else toks[k];
    var led := if 0 < k <= upto && OwnAt(toks, k - 1) then marked.(text := TrimLine(marked.text)) else marked;
    if k + 1 < |toks| && k + 1 < upto && OwnAt(toks, k + 1) then led.(text := TrimTail(led.text)) else led
  }

  function Pass(toks: seq<Token>, upto: nat): (r: seq<Token>)
    ensures |r| == |toks|
  {
    seq(|toks|, k requires 0 <= k < |toks| => Settled(toks, upto, k))
  }

  lemma {:induction false} LastLineSurvives(s: string)
    requires HasNewline(s)
    ensures LastLine(AfterFirstLine(s)) == LastLine(s)
  {
    if s[0] == '\n' {
      LastLineOfTail(s);
    } else {
      LastLineSurvives(s[1..]);
      LastLineOfTail(s);
    }
  }

  lemma {:induction false} LastLineOfTail(s: string)
    requires s != "" && (s[0] == '\n' || HasNewline(s[1..]))
    ensures LastLine(s) == LastLine(s[1..])
  {
    if |s| > 1 && s[|s| - 1] != '\n' {
      var t := s[..|s| - 1];
      assert s[1..][..|s| - 2] == t[1..];
      assert HasNewline(s[1..]) ==> HasNewline(t[1..]) by {
        if HasNewline(s[1..]) {
          var i :| 0 <= i < |s[1..]| && s[1..][i] == '\n';
          assert t[1..][i] == '\n';
        }
      }
      LastLineOfTail(t);
    } else if |s| == 1 {
      assert s[..0] == "";
    }
  }

  lemma OwnMeansAlone(toks: seq<Token>, i: nat)
    requires i < |toks| && OwnAt(toks, i)
    ensures Alone(toks, i)
  {
  }

  lemma BeforeInPass(toks: seq<Token>, i: nat)
    requires i < |toks|
    ensures BlankBefore(Pass(toks, i), i) <==>
            BlankBefore(toks, i) && !(i >= 2 && OwnAt(toks, i - 2) && OneNewline(toks[i - 1].text))
  {
    if i > 0 {
      assert Pass(toks, i)[i - 1] == Settled(toks, i, i - 1);
      if i >= 2 && OwnAt(toks, i - 2) {
        OwnMeansAlone(toks, i - 2);
        LastLineSurvives(toks[i - 1].text);
        hide OwnAt, AllBlank, LastLine, AfterFirstLine;
        assert Settled(toks, i, i - 1).text == AfterFirstLine(toks[i - 1].text);
      }
    }
  }

  lemma AfterInPass(toks: seq<Token>, i: nat)
    requires i < |toks|
    ensures BlankAfter(Pass(toks, i), i) <==> BlankAfter(toks, i)
    ensures IsBlock(Pass(toks, i)[i]) <==> IsBlock(toks[i])
  {
    hide OwnAt, AllBlank, FirstLine;
    assert Pass(toks, i)[i] == Settled(toks, i, i);
    if i + 1 < |toks| {
      assert Pass(toks, i)[i + 1] == toks[i + 1];
    }
  }

  /** When the pass reaches tag i, it finds it alone exactly when OwnAt says so. */
  lemma AloneInPass(toks: seq<Token>, i: nat)
    requires i < |toks|
    ensures Alone(Pass(toks, i), i) <==> OwnAt(toks, i)
  {
    BeforeInPass(toks, i);
    AfterInPass(toks, i);
    hide Pass, BlankBefore, BlankAfter, IsBlock, OneNewline;
  }

  lemma SettledSteps(toks: seq<Token>, i: nat, k: nat)
    requires i < |toks| && k < |toks|
    ensures Settled(toks, i + 1, k) ==
            var t := Settled(toks, i, k);
            if !OwnAt(toks, i) then t
            else if k == i then t.(ownLine := true)
            else if k + 1 == i then t.(text := TrimTail(t.text))
            else if k == i + 1 then t.(text := TrimLine(t.text))
            else t
  {
    hide OwnAt, TrimTail, TrimLine;
  }

  lemma PassSteps(toks: seq<Token>, i: nat)
    requires i < |toks|
    ensures OwnLineStep(Pass(toks, i), i) == Pass(toks, i + 1)
  {
    AloneInPass(toks, i);
    hide Alone, OwnAt, TrimTail, TrimLine, Settled;
    forall k | 0 <= k < |toks|
      ensures OwnLineStep(Pass(toks, i), i)[k] == Settled(toks, i + 1, k)
    {
      SettledSteps(toks, i, k);
    }
  }

  lemma {:induction false} PassIsClosed(toks: seq<Token>, i: nat)
    requires i <= |toks|
    ensures OwnLineFrom(Pass(toks, i), i) == Pass(toks, |toks|)
    decreases |toks| - i
  {
    if i < |toks| {
      PassSteps(toks, i);
      PassIsClosed(toks, i + 1);
    }
  }

  /** The in-place pass, token by token: every tag keeps everything but its mark, and
      the mark is OwnAt; every literal loses the start of its line when the tag before
      it is removed and the end of its line when the tag after it is. */
  lemma OwnLinesExactly(toks: seq<Token>)
    ensures OwnLines(toks) == Pass(toks, |toks|)
  {
    assert Pass(toks, 0) == toks;
    PassIsClosed(toks, 0);
  }

  lemma MarksAreOwn(toks: seq<Token>, i: nat)
    requires i < |toks| && !toks[i].ownLine
    ensures OwnLines(toks)[i].ownLine <==> OwnAt(toks, i)
  {
    OwnLinesExactly(toks);
    hide OwnAt, TrimTail, TrimLine, OwnLines;
    assert Pass(toks, |toks|)[i] == Settled(toks, |toks|, i);
  }

  /** The pass removes every lone tag's line if and only if no lone tag sits on the line
      right after another lone tag. */
  lemma EveryLoneLineRemovedExactly(toks: seq<Token>)
    requires forall k | 0 <= k < |toks| :: !toks[k].ownLine
    ensures (forall i | 0 <= i < |toks| && Alone(toks, i) :: OwnLines(toks)[i].ownLine) <==>
            (forall i | 2 <= i < |toks| && Alone(toks, i - 2) && Alone(toks, i) :: !OneNewline(toks[i - 1].text))
  {
    hide OwnLines, Alone, OneNewline;
    if i: nat :| 2 <= i < |toks| && Alone(toks, i - 2) && Alone(toks, i) && OneNewline(toks[i - 1].text) {
      MarksAreOwn(toks, i - 2);
      MarksAreOwn(toks, i);
    } else {
      forall i | 0 <= i < |toks| && Alone(toks, i)
        ensures OwnLines(toks)[i].ownLine
      {
        MarksAreOwn(toks, i);
      }
    }
  }

  /** It does happen: an empty section over two lines leaves its second line behind. */
  lemma LoneTagAfterLoneTag(name: string)
    ensures var toks := [Token(BlockOpen, "{{#" + name + "}}", name, "", false, false), LiteralToken("\n"),
                         Token(BlockClose, "{{/" + name + "}}", name, "", false, false), LiteralToken("\n")];
            && Alone(toks, 0) && Alone(toks, 2)
            && OwnLines(toks)[0].ownLine && !OwnLines(toks)[2].ownLine
            && OwnLines(toks)[3].text == "\n"
  {
    var toks := [Token(BlockOpen, "{{#" + name + "}}", name, "", false, false), LiteralToken("\n"),
                 Token(BlockClose, "{{/" + name + "}}", name, "", false, false), LiteralToken("\n")];
    OwnLinesExactly(toks);
    var nl := "\n";
    assert nl[..0] == "" && nl[1..] == "";
    assert HasNewline(nl) && AfterFirstLine(nl) == "";
    assert LastLine(nl) == "" && FirstLine(nl) == "";
    assert OneNewline(nl);
    var p := Pass(toks, |toks|);
    assert p[0] == Settled(toks, 4, 0) && p[2] == Settled(toks, 4, 2) && p[3] == Settled(toks, 4, 3);
  }

  // --- and a template that anyone can type is such a case -----------------------------------

  predicate NoBrace(s: string) { forall i | 0 <= i < |s| :: s[i] != '}' }

  lemma {:induction false} FindCloseAfter(s: string, rest: string)
    requires NoBrace(s)
    ensures FindClose(s + "}}" + rest) == Some(|s|)
  {
    var t := s + "}}" + rest;
    if s != "" {
      assert t[1..] == s[1..] + "}}" + rest;
      FindCloseAfter(s[1..], rest);
    }
  }

  lemma NamesAreSolid(name: string)
    requires ValidName(name)
    ensures name != "" && NoBrace(name) && !IsBlank(name[0]) && !IsBlank(name[|name| - 1]) && Trim(name) == name
  {
    if HasPrefix(name, PARAMS) {
      forall i | 0 <= i < |name|
        ensures name[i] != '}' && !IsBlank(name[i])
      {
        if i < |PARAMS| {
          assert name[i] == PARAMS[i];
        } else {
          assert name[i] == CutParams(name)[i - |PARAMS|];
        }
      }
    }
  }

  /** The tag that opens (#) or closes (/) a section. */
  function BlockTag(sign: char, name: string): string { "{{" + [sign] + name + "}}" }

  function BlockToken(sign: char, name: string): Token {
    Token(if sign == '/' then BlockClose else BlockOpen, BlockTag(sign, name), name, "", false, false)
  }

  lemma BlockTagParses(sign: char, name: string)
    requires ValidName(name) && (sign == '#' || sign == '/')
    ensures ParseTag([sign] + name, BlockTag(sign, name)) == Some(BlockToken(sign, name))
  {
    NamesAreSolid(name);
    var inner := [sign] + name;
    hide ValidName;
    assert inner[|inner| - 1] == name[|name| - 1] && !IsBlank(inner[0]);
    assert Trim(inner) == inner;
    assert inner[1..] == name;
  }

  lemma BlockTagStands(sign: char, name: string, rest: string)
    requires ValidName(name) && (sign == '#' || sign == '/')
    ensures var s := BlockTag(sign, name) + rest;
            var end := |name| + 1;
            Opens(s) && FindClose(s[2..]) == Some(end)
            && s[2..end + 2] == [sign] + name && s[..end + 4] == BlockTag(sign, name) && s[end + 4..] == rest
  {
    NamesAreSolid(name);
    hide ValidName, Trim;
    FindCloseAfter([sign] + name, rest);
    var s := BlockTag(sign, name) + rest;
    assert s[2..] == [sign] + name + "}}" + rest;
  }

  lemma BlockTagScans(sign: char, name: string, rest: string, lit: string)
    requires ValidName(name) && (sign == '#' || sign == '/')
    ensures Scan(BlockTag(sign, name) + rest, lit) == Flush(lit) + [BlockToken(sign, name)] + Scan(rest, "")
  {
    BlockTagStands(sign, name, rest);
    BlockTagParses(sign, name);
    hide Opens, FindClose, ParseTag, ValidName, Scan, BlockTag, BlockToken;
    ScanTag(BlockTag(sign, name) + rest, lit, |name| + 1, BlockToken(sign, name));
  }

  function TwoLineSection(name: string): string {
    BlockTag('#', name) + ("\n" + (BlockTag('/', name) + "\n"))
  }

  lemma NewlineScans(rest: string)
    ensures Scan("\n" + rest, "") == Scan(rest, "\n")
  {
    assert ("\n" + rest)[1..] == rest;
    assert "" + ['\n'] == "\n";
  }

  /** An empty section over two lines scans to these tokens, for any variable name, ... */
  lemma TwoLineSectionScans(name: string)
    requires ValidName(name)
    ensures Scan(TwoLineSection(name), "") ==
            [BlockToken('#', name), LiteralToken("\n"), BlockToken('/', name), LiteralToken("\n")]
  {
    BlockTagScans('#', name, "\n" + (BlockTag('/', name) + "\n"), "");
    NewlineScans(BlockTag('/', name) + "\n");
    BlockTagScans('/', name, "\n", "\n");
    NewlineScans("");
    assert "\n" + "" == "\n";
    assert Scan("", "\n") == [LiteralToken("\n")];
    hide Scan, BlockTag, BlockToken, ValidName;
  }

  lemma BlockTagChecks(sign: char, name: string, rest: string, open: string)
    requires ValidName(name) && !IsReserved(name) && IsOffered(name)
    requires (sign == '#' && open == "") || (sign == '/' && open == name)
    ensures Check(BlockTag(sign, name) + rest, open) == Check(rest, if sign == '#' then name else "")
  {
    BlockTagStands(sign, name, rest);
    BlockTagParses(sign, name);
    NamesAreSolid(name);
    var s := BlockTag(sign, name) + rest;
    assert CheckTag(BlockToken(sign, name), open) == ([], if sign == '#' then name else "");
    hide Opens, FindClose, ParseTag, ValidName, BlockTag, BlockToken, IsReserved, IsOffered, CheckTag, Trim;
    assert s != "";
  }

  /** ... is accepted by the validator, ... */
  lemma TwoLineSectionIsValid(name: string)
    requires ValidName(name) && !IsReserved(name) && IsOffered(name)
    ensures Check(TwoLineSection(name), "") == []
  {
    var close := BlockTag('/', name) + "\n";
    BlockTagChecks('#', name, "\n" + close, "");
    assert ("\n" + close)[1..] == close;
    BlockTagChecks('/', name, "\n", name);
    assert "\n"[1..] == "";
    hide BlockTag, ValidName, IsReserved, IsOffered;
  }

  lemma TwoLineSectionFits(name: string)
    requires ValidName(name)
    ensures TwoLineSection(name) != "" && |TwoLineSection(name)| <= MAX_TEMPLATE_LEN
  {
    assert HasPrefix(name, PARAMS) ==> |name| == |PARAMS| + |CutParams(name)|;
  }

  /** Four tokens of which the first lone tag lost its line and the second did not. */
  predicate LastLineStays(toks: seq<Token>) {
    |toks| == 4 && toks[0].ownLine && !toks[2].ownLine && toks[3].text == "\n"
  }

  lemma TwoLineSectionPasses(name: string)
    requires ValidName(name)
    ensures LastLineStays(OwnLines(Scan(TwoLineSection(name), "")))
  {
    hide Scan, OwnLines, ValidName, Alone, TwoLineSection;
    TwoLineSectionScans(name);
    LoneTagAfterLoneTag(name);
    assert "{{#" + name + "}}" == BlockTag('#', name);
    assert "{{/" + name + "}}" == BlockTag('/', name);
  }

  lemma TwoLineSectionIsAccepted(name: string)
    requires ValidName(name) && !IsReserved(name) && IsOffered(name)
    ensures ValidateField(TwoLineSection(name)) == []
  {
    TwoLineSectionFits(name);
    TwoLineSectionIsValid(name);
    hide Check, ValidName, IsReserved, IsOffered, TwoLineSection;
  }

  /** ... and keeps its closing line, empty: the pass takes the first line only. */
  lemma TwoLineSectionKeepsALine(name: string)
    requires ValidName(name) && !IsReserved(name) && IsOffered(name)
    ensures ValidateField(TwoLineSection(name)) == [] && LastLineStays(Tokens(TwoLineSection(name)))
  {
    TwoLineSectionPasses(name);
    TwoLineSectionIsAccepted(name);
    hide Check, Scan, OwnLines, ValidName, IsReserved, IsOffered, TwoLineSection, LastLineStays, ValidateField;
  }

  /** {{#severity}}, a line break, {{/severity}}, a line break is such a template. */
  lemma SeverityIsSuchAName()
    ensures ValidName("severity") && !IsReserved("severity") && IsOffered("severity")
  {
    assert VARIABLES[0] == "severity";
    assert ToLower("severity") == "severity";
  }

  lemma SeverityTemplate()
    ensures TwoLineSection("severity") == "{{#severity}}\n{{/severity}}\n"
  {
  }

  // --- no tag survives in literal text --------------------------------------------------

  predicate Touch(lit: string, rest: string) {
    lit != "" && rest != "" && lit[|lit| - 1] == '{' && rest[0] == '{'
  }

  lemma {:induction false} TagAcross(a: string, b: string)
    requires !HoldsTag(a) && !HoldsTag(b) && !Touch(a, b)
    ensures !HoldsTag(a + b)
  {
    if a == "" {
      assert a + b == b;
    } else {
      assert (a + b)[1..] == a[1..] + b;
      TagAcross(a[1..], b);
    }
  }

  lemma {:induction false} TagInside(a: string, b: string)
    requires !HoldsTag(a + b)
    ensures !HoldsTag(a) && !HoldsTag(b)
  {
    if a == "" {
      assert a + b == b;
    } else {
      assert (a + b)[1..] == a[1..] + b;
      TagInside(a[1..], b);
    }
  }

  predicate PlainLiterals(toks: seq<Token>) {
    forall k | 0 <= k < |toks| && toks[k].kind == Literal :: !HoldsTag(toks[k].text)
  }

  lemma PlainTogether(a: seq<Token>, b: seq<Token>)
    requires PlainLiterals(a) && PlainLiterals(b)
    ensures PlainLiterals(a + b)
  {
  }

  lemma {:induction false} ScannedLiteralsArePlain(rest: string, lit: string, open: string)
    requires Check(rest, open) == [] && !HoldsTag(lit) && !Touch(lit, rest)
    ensures PlainLiterals(Scan(rest, lit))
    decreases |rest|
  {
    hide FindClose, ParseTag, CheckTag;
    if rest == "" {
    } else if !Opens(rest) {
      TagAcross(lit, [rest[0]]);
      ScannedLiteralsArePlain(rest[1..], lit + [rest[0]], open);
    } else {
      var end, tok, next := PassedTag(rest, open);
      ParsedNameIsValid(rest[2..end + 2], rest[..end + 4]);
      ScanTag(rest, lit, end, tok);
      ScannedLiteralsArePlain(rest[end + 4..], "", next);
      PlainTogether(Flush(lit), [tok]);
      PlainTogether(Flush(lit) + [tok], Scan(rest[end + 4..], ""));
    }
  }

  lemma {:induction false} TrimRightIsPrefix(s: string)
    ensures exists k | 0 <= k <= |s| :: TrimRight(s, IsBlank) == s[..k]
  {
    if s != "" && IsBlank(s[|s| - 1]) {
      TrimRightIsPrefix(s[..|s| - 1]);
      var k :| 0 <= k <= |s| - 1 && TrimRight(s[..|s| - 1], IsBlank) == s[..|s| - 1][..k];
      assert s[..|s| - 1][..k] == s[..k];
    } else {
      assert s[..|s|] == s;
    }
  }

  lemma {:induction false} TrimLineIsSuffix(s: string)
    ensures exists k | 0 <= k <= |s| :: TrimLine(s) == s[k..]
  {
    if HasNewline(s) {
      AfterFirstLineIsSuffix(s);
    } else {
      TrimLeftIsSuffix(s);
    }
  }

  lemma {:induction false} AfterFirstLineIsSuffix(s: string)
    requires HasNewline(s)
    ensures exists k | 0 <= k <= |s| :: AfterFirstLine(s) == s[k..]
  {
    if s[0] != '\n' {
      AfterFirstLineIsSuffix(s[1..]);
      var k :| 0 <= k <= |s| - 1 && AfterFirstLine(s[1..]) == s[1..][k..];
      assert s[1..][k..] == s[k + 1..];
    } else {
      assert s[1..] == AfterFirstLine(s);
    }
  }

  lemma {:induction false} TrimLeftIsSuffix(s: string)
    ensures exists k | 0 <= k <= |s| :: TrimLeft(s, IsBlank) == s[k..]
  {
    if s != "" && IsBlank(s[0]) {
      TrimLeftIsSuffix(s[1..]);
      var k :| 0 <= k <= |s| - 1 && TrimLeft(s[1..], IsBlank) == s[1..][k..];
      assert s[1..][k..] == s[k + 1..];
    } else {
      assert s[0..] == s;
    }
  }

  lemma TrimmingKeepsPlain(s: string)
    requires !HoldsTag(s)
    ensures !HoldsTag(TrimTail(s)) && !HoldsTag(TrimLine(s))
  {
    hide HoldsTag, TrimRight, TrimLine;
    TrimRightIsPrefix(s);
    var k :| 0 <= k <= |s| && TrimRight(s, IsBlank) == s[..k];
    PartsArePlain(s, k);
    TrimLineIsSuffix(s);
    var j :| 0 <= j <= |s| && TrimLine(s) == s[j..];
    PartsArePlain(s, j);
  }

  lemma PartsArePlain(s: string, k: nat)
    requires !HoldsTag(s) && k <= |s|
    ensures !HoldsTag(s[..k]) && !HoldsTag(s[k..])
  {
    hide HoldsTag;
    assert s[..k] + s[k..] == s;
    TagInside(s[..k], s[k..]);
  }

  /** What a valid template renders as literal text never contains an opening tag: no tag
      of the source reaches the output verbatim. */
  lemma ValidTemplatesHoldNoLiteralTag(src: string)
    requires ValidateField(src) == []
    ensures PlainLiterals(Tokens(src))
  {
    var toks := Scan(src, "");
    ScannedLiteralsArePlain(src, "", "");
    OwnLinesExactly(toks);
    forall k | 0 <= k < |toks| && Tokens(src)[k].kind == Literal
      ensures !HoldsTag(Tokens(src)[k].text)
    {
      TrimmingKeepsPlain(toks[k].text);
      TrimmingKeepsPlain(TrimLine(toks[k].text));
      hide OwnAt;
      assert Pass(toks, |toks|)[k] == Settled(toks, |toks|, k);
    }
  }
}
