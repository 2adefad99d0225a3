/** Section tags on lines of their own (pkg/notify/template.go:282-360): which line is a tag's own,
    and that it goes, whole, with nothing else. */
module TemplateLines {
  import opened Basics
  import opened Text
  import opened Template
  import opened TemplateMeaning
  import opened TemplateOwnLine
  import opened TemplateText

  // --- tags on lines of their own --------------------------------------------------------

  predicate Blanks(s: string) { forall i | 0 <= i < |s| :: s[i] == ' ' || s[i] == '\t' }

  lemma {:induction false} LastLineIs(p: string, w: string)
    requires Blanks(w)
    ensures LastLine(p + "\n" + w) == w && TrimTail(p + "\n" + w) == p + "\n" && HasNewline(p + "\n" + w)
  {
    var s := p + "\n" + w;
    assert s[|p|] == '\n';
    if w == "" {
      assert s == p + "\n";
    } else {
      assert s[..|s| - 1] == p + "\n" + w[..|w| - 1];
      LastLineIs(p, w[..|w| - 1]);
      assert w[..|w| - 1] + [w[|w| - 1]] == w;
    }
  }

  lemma {:induction false} FirstLineIs(v: string, q: string)
    requires Blanks(v)
    ensures FirstLine(v + "\n" + q) == v && HasNewline(v + "\n" + q) && TrimLine(v + "\n" + q) == q
  {
    var s := v + "\n" + q;
    assert s[|v|] == '\n';
    if v == "" {
      assert s[1..] == q;
    } else {
      assert s[1..] == v[1..] + "\n" + q;
      FirstLineIs(v[1..], q);
      assert [v[0]] + v[1..] == v;
    }
  }

  lemma BlanksAreBlank(s: string)
    ensures AllBlank(s) <==> Blanks(s)
  {
  }

  /** A section with both tags on lines of their own, indented or not. */
  function OwnLineTokens(before: string, w: string, name: string, v: string, body: string, w': string, v': string, after: string): seq<Token> {
    [LiteralToken(before + "\n" + w), BlockToken('#', name), LiteralToken(v + "\n" + (body + "\n" + w')),
     BlockToken('/', name), LiteralToken(v' + "\n" + after)]
  }

  lemma TwoNewlines(v: string, body: string, w': string)
    requires Blanks(v)
    ensures !OneNewline(v + "\n" + (body + "\n" + w'))
  {
    FirstLineIs(v, body + "\n" + w');
    assert (body + "\n" + w')[|body|] == '\n';
  }

  lemma BothAreAlone(before: string, w: string, name: string, v: string, body: string, w': string, v': string, after: string)
    requires Blanks(w) && Blanks(v) && Blanks(w') && Blanks(v')
    ensures var toks := OwnLineTokens(before, w, name, v, body, w', v', after);
            Alone(toks, 1) && Alone(toks, 3)
  {
    hide OneNewline, HasNewline, LastLine, FirstLine, TrimTail, TrimLine, AllBlank, Blanks;
    LastLineIs(before, w);
    FirstLineIs(v, body + "\n" + w');
    LastLineIs(v + "\n" + body, w');
    assert v + "\n" + body + "\n" + w' == v + "\n" + (body + "\n" + w');
    FirstLineIs(v', after);
    BlanksAreBlank(w);
    BlanksAreBlank(v);
    BlanksAreBlank(w');
    BlanksAreBlank(v');
  }

  lemma BothAreOwn(before: string, w: string, name: string, v: string, body: string, w': string, v': string, after: string)
    requires Blanks(w) && Blanks(v) && Blanks(w') && Blanks(v')
    ensures var toks := OwnLineTokens(before, w, name, v, body, w', v', after);
            OwnAt(toks, 1) && OwnAt(toks, 3)
  {
    hide OneNewline, Blanks, Alone, BlockToken;
    BothAreAlone(before, w, name, v, body, w', v', after);
    TwoNewlines(v, body, w');
  }

  lemma TextLeft(toks: seq<Token>)
    requires |toks| == 5 && OwnAt(toks, 1) && OwnAt(toks, 3)
    ensures OwnLines(toks)[0].text == TrimTail(toks[0].text)
    ensures OwnLines(toks)[2].text == TrimTail(TrimLine(toks[2].text))
    ensures OwnLines(toks)[4].text == TrimLine(toks[4].text)
  {
    hide OwnAt, TrimTail, TrimLine, OwnLines;
    OwnLinesExactly(toks);
    assert Pass(toks, 5)[0] == Settled(toks, 5, 0);
    assert Pass(toks, 5)[2] == Settled(toks, 5, 2);
    assert Pass(toks, 5)[4] == Settled(toks, 5, 4);
  }

  /** Both lines go, whole, and nothing else does. */
  lemma OwnLinesGo(before: string, w: string, name: string, v: string, body: string, w': string, v': string, after: string)
    requires Blanks(w) && Blanks(v) && Blanks(w') && Blanks(v')
    ensures var toks := OwnLines(OwnLineTokens(before, w, name, v, body, w', v', after));
            && toks[0].text == before + "\n" && toks[2].text == body + "\n" && toks[4].text == after
  {
    hide OwnAt, TrimTail, TrimLine, OwnLines, Blanks, BlockToken;
    var toks := OwnLineTokens(before, w, name, v, body, w', v', after);
    BothAreOwn(before, w, name, v, body, w', v', after);
    TextLeft(toks);
    LastLineIs(before, w);
    MiddleGoesBothWays(v, body, w');
    FirstLineIs(v', after);
  }

  lemma MiddleGoesBothWays(v: string, body: string, w': string)
    requires Blanks(v) && Blanks(w')
    ensures TrimTail(TrimLine(v + "\n" + (body + "\n" + w'))) == body + "\n"
  {
    FirstLineIs(v, body + "\n" + w');
    LastLineIs(body, w');
  }

  lemma {:induction false} BlanksOpenNothing(s: string)
    requires Blanks(s)
    ensures !HoldsTag(s)
  {
    if s != "" {
      BlanksOpenNothing(s[1..]);
    }
  }

  /** Two texts with a line break between them. */
  lemma LinesOpenNothing(a: string, b: string)
    requires !HoldsTag(a) && !HoldsTag(b)
    ensures !HoldsTag(a + "\n" + b)
  {
    assert !HoldsTag("\n") by { assert "\n"[1..] == ""; }
    TagAcross(a, "\n");
    TagAcross(a + "\n", b);
  }

  lemma LastOfLines(a: string, b: string)
    requires b == "" || b[|b| - 1] != '{'
    ensures var s := a + "\n" + b; s != "" && s[|s| - 1] != '{'
  {
    var s := a + "\n" + b;
    assert s[|a|] == '\n';
    assert b != "" ==> s[|a| + |b|] == b[|b| - 1];
  }

  lemma GoodLines(a: string, b: string)
    requires !HoldsTag(a) && !HoldsTag(b) && (b == "" || b[|b| - 1] != '{')
    ensures GoodLeaf(Words(a + "\n" + b))
  {
    hide *;
    LinesOpenNothing(a, b);
    LastOfLines(a, b);
    WordsAreGood(a + "\n" + b);
  }

  lemma WordsAreGood(text: string)
    requires text != "" && !HoldsTag(text) && text[|text| - 1] != '{'
    ensures GoodLeaf(Words(text))
  {
    hide HoldsTag, CanBeNamed, NoClose;
  }

  function OwnLineItems(before: string, w: string, name: string, v: string, body: string, w': string, v': string, after: string): seq<Item> {
    [One(Words(before + "\n" + w)), Section(name, [Words(v + "\n" + (body + "\n" + w'))]), One(Words(v' + "\n" + after))]
  }

  lemma OwnLineItemsAreGood(before: string, w: string, name: string, v: string, body: string, w': string, v': string, after: string)
    requires Blanks(w) && Blanks(v) && Blanks(w') && Blanks(v') && CanBeNamed(name)
    requires !HoldsTag(before) && !HoldsTag(body) && !HoldsTag(after) && (after == "" || after[|after| - 1] != '{')
    ensures GoodItems(OwnLineItems(before, w, name, v, body, w', v', after))
  {
    BlanksOpenNothing(w);
    BlanksOpenNothing(v);
    BlanksOpenNothing(w');
    BlanksOpenNothing(v');
    LinesOpenNothing(body, w');
    hide HoldsTag, CanBeNamed, GoodLeaf;
    GoodLines(before, w);
    var inner := body + "\n" + w';
    assert inner[|inner| - 1] == if w' == "" then '\n' else w'[|w'| - 1];
    GoodLines(v, inner);
    GoodLines(v', after);
    var middle := [Words(v + "\n" + inner)];
    assert middle[1..] == [] && GoodLeaves([]) && GoodLeaves(middle);
    var items := OwnLineItems(before, w, name, v, body, w', v', after);
    assert items[1..] == [items[1], items[2]] && items[1..][1..] == [items[2]] && items[1..][1..][1..] == [];
    assert GoodItems([]) && GoodItems([items[2]]) && GoodItems([items[1], items[2]]);
  }

  lemma OwnLineItemsTokens(before: string, w: string, name: string, v: string, body: string, w': string, v': string, after: string)
    ensures ItemsTokens(OwnLineItems(before, w, name, v, body, w', v', after))
         == OwnLineTokens(before, w, name, v, body, w', v', after)
  {
    hide BlockToken;
    var items := OwnLineItems(before, w, name, v, body, w', v', after);
    var middle := [Words(v + "\n" + (body + "\n" + w'))];
    assert middle[1..] == [] && LeafTokens([]) == [] && LeafTokens(middle) == [LiteralToken(middle[0].text)];
    assert items[1..] == [items[1], items[2]] && items[1..][1..] == [items[2]] && items[1..][1..][1..] == [];
    assert ItemsTokens([]) == [];
    assert ItemsTokens([items[2]]) == [LiteralToken(v' + "\n" + after)];
    assert ItemsTokens([items[1], items[2]]) == ItemTokens(items[1]) + ItemsTokens([items[2]]);
  }

  /** Text, a section around text, text. */
  lemma FiveTokensRender(toks: seq<Token>, lookup: string -> Option<string>, escape: string -> string)
    requires |toks| == 5 && toks[0].kind == toks[2].kind == toks[4].kind == Literal
    requires toks[1].kind == BlockOpen && toks[3].kind == BlockClose && toks[1].name == toks[3].name != ""
    requires lookup(toks[1].name).Some?
    ensures Render(toks, lookup, escape, "", "")
         == toks[0].text + (if lookup(toks[1].name) == Some("") then "" else toks[2].text) + toks[4].text
  {
    var n, t := toks[1].name, toks[4].text;
    assert toks[1..][1..] == toks[2..] && toks[2..][1..] == toks[3..] && toks[3..][1..] == toks[4..] && toks[4..] == [toks[4]];
    LiteralRenders(toks[4], lookup, escape, "");
    LiteralRenders(toks[4], lookup, escape, n);
    assert Render(toks[3..], lookup, escape, n, n) == t;
    assert Render(toks[2..], lookup, escape, n, n) == t;
    assert Render(toks[3..], lookup, escape, "", n) == t;
    assert Render(toks[2..], lookup, escape, "", n) == toks[2].text + t;
    assert Render(toks[1..], lookup, escape, "", "") == if lookup(n) == Some("") then t else toks[2].text + t;
  }

  lemma LiteralRenders(t: Token, lookup: string -> Option<string>, escape: string -> string, inBlock: string)
    requires t.kind == Literal
    ensures Render([t], lookup, escape, "", inBlock) == t.text
  {
    assert [t][1..] == [];
    assert Render([], lookup, escape, "", inBlock) == "";
  }

  /** {{#name}} and {{/name}} on lines of their own, indented or not, leave no line behind: with a
      value the lines between them are printed, without one nothing is. */
  lemma OwnLineSectionsLeaveNoLine(e: Event, before: string, w: string, name: string, v: string, body: string,
                                   w': string, v': string, after: string, escape: string -> string)
    requires Blanks(w) && Blanks(v) && Blanks(w') && Blanks(v') && CanBeNamed(name)
    requires !HoldsTag(before) && !HoldsTag(body) && !HoldsTag(after) && (after == "" || after[|after| - 1] != '{')
    ensures RenderText(ItemsText(OwnLineItems(before, w, name, v, body, w', v', after)), n => Resolve(e, n), escape)
         == before + "\n" + (if ValueOf(e, name) == "" then "" else body + "\n") + after
  {
    hide HoldsTag, Blanks, Scan, OwnLines, GoodItems, ItemsTokens, ItemsText, Resolve, ValueOf, ValidName, IsOffered,
      IsReserved, Template.Render, BlockTag;
    OwnLineItemsAreGood(before, w, name, v, body, w', v', after);
    OwnLineItemsTokens(before, w, name, v, body, w', v', after);
    ItemsScan(OwnLineItems(before, w, name, v, body, w', v', after));
    OwnLinesGo(before, w, name, v, body, w', v', after);
    var toks := OwnLineTokens(before, w, name, v, body, w', v', after);
    OwnLinesKeepShape(toks, 0);
    NamesResolveToTheirValue(e, name);
    OwnLinesIs(toks);
    FiveTokensRender(OwnLines(toks), n => Resolve(e, n), escape);
  }

  lemma OwnLinesIs(toks: seq<Token>)
    ensures OwnLines(toks) == OwnLineFrom(toks, 0)
  {
  }

  /** The text of those items is what one would type: lines, two of them holding one tag each. */
  lemma OwnLineText(before: string, w: string, name: string, v: string, body: string, w': string, v': string, after: string)
    ensures var opening, closing := w + BlockTag('#', name) + v, w' + BlockTag('/', name) + v';
            ItemsText(OwnLineItems(before, w, name, v, body, w', v', after))
            == before + "\n" + opening + "\n" + body + "\n" + closing + "\n" + after
  {
    var items := OwnLineItems(before, w, name, v, body, w', v', after);
    ThreeItems(items[0], items[1], items[2]);
    SectionText(name, v + "\n" + (body + "\n" + w'));
    hide *;
    Flatten(before, w, BlockTag('#', name), v, body, w', BlockTag('/', name), v', after);
  }

  lemma ThreeItems(a: Item, b: Item, c: Item)
    ensures ItemsText([a, b, c]) == ItemText(a) + (ItemText(b) + ItemText(c))
  {
    hide ItemText;
    assert [a, b, c][1..] == [b, c] && [b, c][1..] == [c] && [c][1..] == [];
    assert ItemsText([]) == "" && ItemsText([c]) == ItemText(c) + "" == ItemText(c);
    assert ItemsText([b, c]) == ItemText(b) + ItemText(c);
  }

  lemma SectionText(name: string, text: string)
    ensures ItemText(Section(name, [Words(text)])) == BlockTag('#', name) + (text + BlockTag('/', name))
  {
    hide BlockTag;
    assert [Words(text)][1..] == [] && LeavesText([]) == "" && text + "" == text;
  }

  lemma Flatten(before: string, w: string, o: string, v: string, body: string, w': string, c: string, v': string, after: string)
    ensures (before + "\n" + w) + ((o + (v + "\n" + (body + "\n" + w') + c)) + (v' + "\n" + after))
         == before + "\n" + (w + o + v) + "\n" + body + "\n" + (w' + c + v') + "\n" + after
  {
    var head, tail := before + "\n" + w, v' + "\n" + after;
    assert v + "\n" + (body + "\n" + w') + c == v + ("\n" + body + "\n" + w' + c);
    assert o + (v + ("\n" + body + "\n" + w' + c)) == (o + v) + ("\n" + body + "\n" + w' + c);
    var middle := "\n" + body + "\n" + w' + c;
    assert head + (((o + v) + middle) + tail) == (head + (o + v)) + (middle + tail);
    assert head + (o + v) == before + "\n" + (w + o + v);
    assert middle + tail == "\n" + body + "\n" + (w' + c + v') + "\n" + after;
  }

  // --- which line is a tag's own ---------------------------------------------------------

  /** What stands before a tag on its line: after a line break, or from the start of the source. */
  lemma BlankBeforeExactly(toks: seq<Token>, i: nat, p: string, w: string)
    requires 0 < i < |toks| && toks[i - 1].kind == Literal && '\n' !in w
    ensures toks[i - 1].text == p + "\n" + w ==> (BlankBefore(toks, i) <==> Blanks(w))
    ensures toks[i - 1].text == w ==> (BlankBefore(toks, i) <==> i == 1 && Blanks(w))
  {
    BlanksAreBlank(w);
    LastLineAlways(p, w);
    hide LastLine, AllBlank, Blanks;
  }

  lemma {:induction false} LastLineAlways(p: string, w: string)
    requires '\n' !in w
    ensures LastLine(p + "\n" + w) == w && HasNewline(p + "\n" + w) && LastLine(w) == w
  {
    var s := p + "\n" + w;
    assert s[|p|] == '\n';
    if w == "" {
      assert s == p + "\n";
    } else {
      assert s[..|s| - 1] == p + "\n" + w[..|w| - 1];
      LastLineAlways(p, w[..|w| - 1]);
      assert w[..|w| - 1] + [w[|w| - 1]] == w;
    }
  }

  /** What stands behind it: up to a line break, or to the end of the source. */
  lemma BlankAfterExactly(toks: seq<Token>, i: nat, v: string, q: string)
    requires i + 1 < |toks| && toks[i + 1].kind == Literal && '\n' !in v
    ensures toks[i + 1].text == v + "\n" + q ==> (BlankAfter(toks, i) <==> Blanks(v))
    ensures toks[i + 1].text == v ==> (BlankAfter(toks, i) <==> i + 2 == |toks| && Blanks(v))
  {
    BlanksAreBlank(v);
    FirstLineAlways(v, q);
    hide FirstLine, AllBlank, Blanks;
  }

  lemma {:induction false} FirstLineAlways(v: string, q: string)
    requires '\n' !in v
    ensures FirstLine(v + "\n" + q) == v && HasNewline(v + "\n" + q) && FirstLine(v) == v
  {
    var s := v + "\n" + q;
    assert s[|v|] == '\n';
    if v != "" {
      assert s[1..] == v[1..] + "\n" + q;
      FirstLineAlways(v[1..], q);
      assert [v[0]] + v[1..] == v;
    }
  }

  /** A tag is alone when its line is blank on both sides, and never next to another tag. */
  lemma NeverAloneNextToATag(toks: seq<Token>, i: nat)
    requires i < |toks| && ((i > 0 && toks[i - 1].kind != Literal) || (i + 1 < |toks| && toks[i + 1].kind != Literal))
    ensures !Alone(toks, i)
  {
  }
}
