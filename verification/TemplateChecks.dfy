/** What the scanner keeps of any source and what the validator accepts, exactly
    (pkg/notify/template.go:173-216, 735-830). */
module TemplateChecks {
  import opened Basics
  import opened Text
  import opened Template
  import opened TemplateMeaning
  import opened TemplateOwnLine
  import opened TemplateText

  // --- nothing of a source is lost -------------------------------------------------------

  function Texts(toks: seq<Token>): string {
    if toks == [] then "" else toks[0].text + Texts(toks[1..])
  }

  lemma {:induction false} TextsAppend(a: seq<Token>, b: seq<Token>)
    ensures Texts(a + b) == Texts(a) + Texts(b)
  {
    if a == [] {
      assert a + b == b;
    } else {
      assert (a + b)[1..] == a[1..] + b;
      TextsAppend(a[1..], b);
    }
  }

  lemma TextsInFront(lit: string, tok: Token, tail: seq<Token>)
    ensures Texts(Flush(lit) + [tok] + tail) == lit + tok.text + Texts(tail)
    ensures Texts(Flush(lit)) == lit
  {
    TextsAppend(Flush(lit) + [tok], tail);
    TextsAppend(Flush(lit), [tok]);
    assert [tok][1..] == [] && [LiteralToken(lit)][1..] == [];
    assert Texts([]) == "";
    assert Texts([tok]) == tok.text && Texts([LiteralToken(lit)]) == lit;
    assert "" + tok.text == tok.text;
  }

  lemma ParsedKeepsText(inner: string, raw: string)
    requires ParseTag(inner, raw).Some?
    ensures ParseTag(inner, raw).value.text == raw && ParseTag(inner, raw).value.name != ""
  {
  }

  lemma TagKeepsTexts(rest: string, lit: string, end: nat, tok: Token)
    requires Opens(rest) && FindClose(rest[2..]) == Some(end)
    requires ParseTag(rest[2..end + 2], rest[..end + 4]) == Some(tok)
    requires Texts(Scan(rest[end + 4..], "")) == rest[end + 4..]
    ensures Texts(Scan(rest, lit)) == lit + rest
  {
    hide FindClose, ParseTag, Flush, Texts, Scan;
    ParsedKeepsText(rest[2..end + 2], rest[..end + 4]);
    ScanTag(rest, lit, end, tok);
    TextsInFront(lit, tok, Scan(rest[end + 4..], ""));
    assert lit + rest[..end + 4] + rest[end + 4..] == lit + rest;
  }

  /** The texts of the tokens, one after another, are the source, whatever it is. */
  lemma {:induction false} ScanLosesNothing(rest: string, lit: string)
    ensures Texts(Scan(rest, lit)) == lit + rest
    decreases |rest|
  {
    hide FindClose, ParseTag, Flush, Texts;
    if rest == "" {
      TextsInFront(lit, LiteralToken(""), []);
    } else if !Opens(rest) {
      ScanLosesNothing(rest[1..], lit + [rest[0]]);
      assert lit + [rest[0]] + rest[1..] == lit + rest;
    } else if FindClose(rest[2..]).None? {
      TextsInFront(lit + rest, LiteralToken(""), []);
    } else {
      var end := FindClose(rest[2..]).value;
      if ParseTag(rest[2..end + 2], rest[..end + 4]).None? {
        ScanLosesNothing(rest[end + 4..], lit + rest[..end + 4]);
        assert lit + rest[..end + 4] + rest[end + 4..] == lit + rest;
      } else {
        ScanLosesNothing(rest[end + 4..], "");
        assert "" + rest[end + 4..] == rest[end + 4..];
        TagKeepsTexts(rest, lit, end, ParseTag(rest[2..end + 2], rest[..end + 4]).value);
      }
    }
  }

  lemma {:induction false} ScannedTagsAreNamed(rest: string, lit: string)
    ensures forall t | t in Scan(rest, lit) && t.kind != Literal :: t.name != ""
    decreases |rest|
  {
    hide FindClose, ParseTag;
    if rest == "" {
    } else if !Opens(rest) {
      ScannedTagsAreNamed(rest[1..], lit + [rest[0]]);
    } else if FindClose(rest[2..]).None? {
    } else {
      var end := FindClose(rest[2..]).value;
      match ParseTag(rest[2..end + 2], rest[..end + 4]) {
        case None =>
          ScannedTagsAreNamed(rest[end + 4..], lit + rest[..end + 4]);
        case Some(tok) =>
          ParsedKeepsText(rest[2..end + 2], rest[..end + 4]);
          ScannedTagsAreNamed(rest[end + 4..], "");
      }
    }
  }

  lemma {:induction false} UnknownTagsStay(toks: seq<Token>, lookup: string -> Option<string>, escape: string -> string)
    requires forall t | t in toks && t.kind != Literal :: t.name != "" && lookup(t.name) == None
    ensures Render(toks, lookup, escape, "", "") == Texts(toks)
  {
    if toks != [] {
      assert toks[0] in toks && forall t | t in toks[1..] :: t in toks;
      UnknownTagsStay(toks[1..], lookup, escape);
    }
  }

  /** A template of which nothing is known prints itself: a misspelt tag is shown, not blanked. */
  lemma NothingKnownPrintsTheSource(src: string, lookup: string -> Option<string>, escape: string -> string)
    requires forall name :: lookup(name) == None
    requires forall k | 0 <= k < |Scan(src, "")| :: !Alone(Scan(src, ""), k)
    ensures RenderText(src, lookup, escape) == src
  {
    hide Scan, Alone, Texts;
    ScanLosesNothing(src, "");
    ScannedTagsAreNamed(src, "");
    NothingAloneStays(Scan(src, ""), 0);
    UnknownTagsStay(Scan(src, ""), lookup, escape);
    assert "" + src == src;
  }

  // --- what the validator accepts, exactly -----------------------------------------------

  predicate PlainDefaults(toks: seq<Token>) {
    forall k | 0 <= k < |toks| && toks[k].hasFall :: !HoldsTag(toks[k].fallback)
  }

  /** Blocks balanced and not nested, names that may be used, and no opening braces left in any
      text or default; `open` is the block that is open before. */
  predicate WellMade(toks: seq<Token>, open: string) {
    Balanced(toks, open) && PlainLiterals(toks) && PlainDefaults(toks)
  }

  lemma TagStaysInLonger(a: string, b: string)
    requires HoldsTag(a) || HoldsTag(b)
    ensures HoldsTag(a + b)
  {
    hide HoldsTag;
    if !HoldsTag(a + b) {
      TagInside(a, b);
    }
  }

  lemma PlainParts(a: seq<Token>, b: seq<Token>)
    ensures PlainLiterals(a + b) <==> PlainLiterals(a) && PlainLiterals(b)
    ensures PlainDefaults(a + b) <==> PlainDefaults(a) && PlainDefaults(b)
  {
    hide HoldsTag;
    forall k | 0 <= k < |a|
      ensures (a + b)[k] == a[k]
    {
    }
    forall k | 0 <= k < |b|
      ensures (a + b)[|a| + k] == b[k]
    {
    }
  }

  lemma FlushedIsPlain(lit: string)
    ensures PlainLiterals(Flush(lit)) <==> !HoldsTag(lit)
    ensures PlainDefaults(Flush(lit))
  {
    if lit != "" {
      assert Flush(lit)[0] == LiteralToken(lit);
    }
  }

  lemma {:induction false} TagInTextStays(rest: string, lit: string)
    requires HoldsTag(lit)
    ensures !PlainLiterals(Scan(rest, lit))
    decreases |rest|
  {
    hide FindClose, ParseTag, HoldsTag, PlainLiterals, Flush;
    if rest == "" {
      FlushedIsPlain(lit);
    } else if !Opens(rest) {
      TagStaysInLonger(lit, [rest[0]]);
      TagInTextStays(rest[1..], lit + [rest[0]]);
    } else if FindClose(rest[2..]).None? {
      TagStaysInLonger(lit, rest);
      FlushedIsPlain(lit + rest);
    } else {
      var end := FindClose(rest[2..]).value;
      var raw, after := rest[..end + 4], rest[end + 4..];
      match ParseTag(rest[2..end + 2], raw) {
        case None =>
          TagStaysInLonger(lit, raw);
          TagInTextStays(after, lit + raw);
        case Some(tok) =>
          FlushedIsPlain(lit);
          PlainParts(Flush(lit), [tok]);
          PlainParts(Flush(lit) + [tok], Scan(after, ""));
      }
    }
  }

  /** The validator finds nothing wrong with one tag, and leaves the right block open, exactly when
      the tag may stand there. */
  lemma OneTagExactly(tok: Token, tail: seq<Token>, open: string)
    requires tok.name != "" && tok.kind != Literal && (tok.kind != Subst ==> !tok.hasFall)
    ensures var (found, next) := CheckTag(tok, open);
            WellMade([tok] + tail, open) <==> found == [] && WellMade(tail, next)
  {
    hide HoldsTag, IsOffered, IsReserved, PlainLiterals, PlainDefaults;
    PlainParts([tok], tail);
    SingleIsPlain(tok);
    assert ([tok] + tail)[1..] == tail;
  }

  lemma SingleIsPlain(tok: Token)
    requires tok.kind != Literal
    ensures PlainLiterals([tok]) && (PlainDefaults([tok]) <==> (tok.hasFall ==> !HoldsTag(tok.fallback)))
  {
    assert [tok][0] == tok;
  }

  lemma FlushedWellMade(lit: string, toks: seq<Token>, open: string)
    requires !HoldsTag(lit)
    ensures WellMade(Flush(lit) + toks, open) <==> WellMade(toks, open)
  {
    hide HoldsTag, Balanced, PlainLiterals, PlainDefaults, Flush;
    FlushKeepsBalance(lit, toks, open);
    FlushedIsPlain(lit);
    PlainParts(Flush(lit), toks);
  }

  lemma ParsedShape(inner: string, raw: string)
    requires ParseTag(inner, raw).Some?
    ensures var tok := ParseTag(inner, raw).value;
            tok.name != "" && tok.kind != Literal && (tok.kind != Subst ==> !tok.hasFall)
  {
  }

  lemma NothingLeftToCheck(lit: string, open: string)
    requires !HoldsTag(lit)
    ensures AtEnd(open) == [] <==> WellMade(Flush(lit), open)
  {
    FlushedWellMade(lit, [], open);
    assert Flush(lit) + [] == Flush(lit);
    assert WellMade([], open) <==> open == "";
  }

  lemma UnterminatedFails(rest: string, lit: string, open: string)
    requires Opens(rest) && FindClose(rest[2..]).None?
    ensures Check(rest, open) != [] && !WellMade(Scan(rest, lit), open)
  {
    hide FindClose, HoldsTag, Balanced, PlainDefaults, PlainLiterals;
    OpenIsATag(rest);
    TagStaysInLonger(lit, rest);
    FlushedIsPlain(lit + rest);
  }

  lemma OpensInFront(s: string, n: nat)
    requires Opens(s) && 2 <= n <= |s|
    ensures Opens(s[..n])
  {
  }

  lemma NoTagIsText(rest: string, lit: string, end: nat)
    requires Opens(rest) && FindClose(rest[2..]) == Some(end) && ParseTag(rest[2..end + 2], rest[..end + 4]).None?
    ensures Scan(rest, lit) == Scan(rest[end + 4..], lit + rest[..end + 4])
  {
    hide FindClose, ParseTag;
  }

  lemma NoTagIsFound(rest: string, open: string, end: nat)
    requires Opens(rest) && FindClose(rest[2..]) == Some(end) && ParseTag(rest[2..end + 2], rest[..end + 4]).None?
    ensures Check(rest, open) != []
  {
    hide FindClose, ParseTag;
  }

  lemma NotPlainIsNotWellMade(toks: seq<Token>, open: string)
    requires !PlainLiterals(toks)
    ensures !WellMade(toks, open)
  {
  }

  lemma NoTagFails(rest: string, lit: string, open: string, end: nat)
    requires Opens(rest) && FindClose(rest[2..]) == Some(end) && ParseTag(rest[2..end + 2], rest[..end + 4]).None?
    ensures Check(rest, open) != [] && !WellMade(Scan(rest, lit), open)
  {
    hide FindClose, ParseTag, HoldsTag, WellMade, PlainLiterals, Scan, Check;
    var raw, after := rest[..end + 4], rest[end + 4..];
    OpensInFront(rest, end + 4);
    OpenIsATag(raw);
    TagStaysInLonger(lit, raw);
    TagInTextStays(after, lit + raw);
    NoTagIsText(rest, lit, end);
    NoTagIsFound(rest, open, end);
    NotPlainIsNotWellMade(Scan(rest, lit), open);
  }

  lemma TagCounts(rest: string, lit: string, open: string, end: nat, tok: Token)
    requires !HoldsTag(lit) && Opens(rest) && FindClose(rest[2..]) == Some(end)
    requires ParseTag(rest[2..end + 2], rest[..end + 4]) == Some(tok)
    requires var after, next := rest[end + 4..], CheckTag(tok, open).1;
             Check(after, next) == [] <==> WellMade(Scan(after, ""), next)
    ensures Check(rest, open) == [] <==> WellMade(Scan(rest, lit), open)
  {
    hide FindClose, ParseTag, HoldsTag, WellMade, Flush, CheckTag, Scan;
    var tail := Scan(rest[end + 4..], "");
    ParsedShape(rest[2..end + 2], rest[..end + 4]);
    ScanTag(rest, lit, end, tok);
    OneTagExactly(tok, tail, open);
    FlushedWellMade(lit, [tok] + tail, open);
    assert Flush(lit) + [tok] + tail == Flush(lit) + ([tok] + tail);
  }

  lemma {:induction false} CheckExactly(rest: string, lit: string, open: string)
    requires !HoldsTag(lit) && !Touch(lit, rest)
    ensures Check(rest, open) == [] <==> WellMade(Scan(rest, lit), open)
    decreases |rest|
  {
    if rest == "" {
      NothingLeftToCheck(lit, open);
      hide WellMade, HoldsTag, Touch;
    } else if !Opens(rest) {
      hide WellMade, HoldsTag, Touch;
      OneCharacterOn(rest, lit);
      CheckExactly(rest[1..], lit + [rest[0]], open);
    } else {
      hide *;
      if FindClose(rest[2..]).None? {
        UnterminatedFails(rest, lit, open);
      } else {
        var end := FindClose(rest[2..]).value;
        if ParseTag(rest[2..end + 2], rest[..end + 4]).None? {
          NoTagFails(rest, lit, open, end);
        } else {
          var tok := ParseTag(rest[2..end + 2], rest[..end + 4]).value;
          NothingIsPlain();
          CheckExactly(rest[end + 4..], "", CheckTag(tok, open).1);
          TagCounts(rest, lit, open, end, tok);
        }
      }
    }
  }

  lemma NothingIsPlain()
    ensures !HoldsTag("") && forall rest :: !Touch("", rest)
  {
  }

  lemma OpenIsATag(s: string)
    requires Opens(s)
    ensures HoldsTag(s)
  {
  }

  lemma OneCharacterOn(rest: string, lit: string)
    requires rest != "" && !Opens(rest) && !HoldsTag(lit) && !Touch(lit, rest)
    ensures !HoldsTag(lit + [rest[0]]) && !Touch(lit + [rest[0]], rest[1..])
  {
    assert !HoldsTag([rest[0]]) by { assert [rest[0]][1..] == ""; }
    assert Touch(lit, [rest[0]]) ==> Touch(lit, rest);
    TagAcross(lit, [rest[0]]);
  }

  /** A template is accepted if and only if it is empty, or not too long, with its blocks balanced
      and not nested, names that may be used, and no opening braces left over anywhere. */
  lemma AcceptedExactly(src: string)
    ensures ValidateField(src) == [] <==> src == "" || (|src| <= 8192 && WellMade(Scan(src, ""), ""))
  {
    hide Check, Scan, WellMade, HoldsTag, Touch;
    NothingIsPlain();
    CheckExactly(src, "", "");
  }
}
