/** A template the validator passes means what a tree of its tags says it means
    (pkg/notify/template.go:178-256, 423-479, 596-669, 730-830). */
module TemplateMeaning {
  import opened Basics
  import opened Text
  import opened Template

  // --- the meaning, on a tree --------------------------------------------------------

  datatype Leaf = Words(text: string) | Field(name: string, hasFall: bool, fallback: string)

  datatype Item = One(leaf: Leaf) | Section(name: string, body: seq<Leaf>)

  function LeafMeaning(leaf: Leaf, lookup: string -> Option<string>, escape: string -> string): string {
    match leaf
    case Words(text) => text
    case Field(name, hasFall, fallback) =>
      var value := lookup(name).GetOr("");
      if value == "" && hasFall then fallback else escape(value)
  }

  function LeavesMeaning(leaves: seq<Leaf>, lookup: string -> Option<string>, escape: string -> string): string {
    if leaves == [] then "" else LeafMeaning(leaves[0], lookup, escape) + LeavesMeaning(leaves[1..], lookup, escape)
  }

  /** A section appears if and only if its variable has a value. */
  function ItemMeaning(item: Item, lookup: string -> Option<string>, escape: string -> string): string {
    match item
    case One(leaf) => LeafMeaning(leaf, lookup, escape)
    case Section(name, body) => if lookup(name).GetOr("") == "" then "" else LeavesMeaning(body, lookup, escape)
  }

  function Meaning(items: seq<Item>, lookup: string -> Option<string>, escape: string -> string): string {
    if items == [] then "" else ItemMeaning(items[0], lookup, escape) + Meaning(items[1..], lookup, escape)
  }

  // --- the tree a token list is ----------------------------------------------------------

  predicate IsLeaf(t: Token) { t.kind == Literal || t.kind == Subst }

  function LeafOf(t: Token): Leaf
    requires IsLeaf(t)
  {
    if t.kind == Literal then Words(t.text) else Field(t.name, t.hasFall, t.fallback)
  }

  /** The tokens are balanced, un-nested blocks of names that may be used, and `open`
      (when not empty) is the block that is still open. */
  predicate Balanced(toks: seq<Token>, open: string) {
    if toks == [] then open == ""
    else
      var t := toks[0];
      match t.kind
      case Literal => Balanced(toks[1..], open)
      case Subst => Usable(t.name) && Balanced(toks[1..], open)
      case BlockOpen => open == "" && Usable(t.name) && Balanced(toks[1..], t.name)
      case BlockClose => open == t.name && Usable(t.name) && Balanced(toks[1..], "")
  }

  /** A name the validator accepts. */
  predicate Usable(name: string) {
    name != "" && IsOffered(name) && !IsReserved(name)
  }

  /** The leaves before the next block tag. */
  function Body(toks: seq<Token>): seq<Leaf> {
    if toks == [] || !IsLeaf(toks[0]) then [] else [LeafOf(toks[0])] + Body(toks[1..])
  }

  /** The tokens after that block tag. */
  function AfterBody(toks: seq<Token>): (rest: seq<Token>)
    ensures |rest| <= |toks|
  {
    if toks == [] then []
    else if IsLeaf(toks[0]) then AfterBody(toks[1..])
    else toks[1..]
  }

  lemma {:induction false} BodyEndsAtItsClose(toks: seq<Token>, open: string)
    requires open != "" && Balanced(toks, open)
    ensures Balanced(AfterBody(toks), "")
  {
    if IsLeaf(toks[0]) {
      BodyEndsAtItsClose(toks[1..], open);
    }
  }

  function Tree(toks: seq<Token>): seq<Item>
    requires Balanced(toks, "")
    decreases |toks|
  {
    if toks == [] then []
    else if IsLeaf(toks[0]) then [One(LeafOf(toks[0]))] + Tree(toks[1..])
    else
      BodyEndsAtItsClose(toks[1..], toks[0].name);
      [Section(toks[0].name, Body(toks[1..]))] + Tree(AfterBody(toks[1..]))
  }

  // --- rendering is that meaning --------------------------------------------------------------

  ghost predicate ResolvesAll(lookup: string -> Option<string>) {
    forall name | Usable(name) :: lookup(name).Some?
  }

  lemma {:induction false} SkipsTheBody(toks: seq<Token>, lookup: string -> Option<string>, escape: string -> string,
                                        open: string, inBlock: string)
    requires open != "" && Balanced(toks, open)
    ensures Render(toks, lookup, escape, open, inBlock) == Render(AfterBody(toks), lookup, escape, "", inBlock)
  {
    if IsLeaf(toks[0]) {
      SkipsTheBody(toks[1..], lookup, escape, open, inBlock);
    }
  }

  lemma {:induction false} RendersTheBody(toks: seq<Token>, lookup: string -> Option<string>, escape: string -> string,
                                          open: string)
    requires open != "" && Balanced(toks, open) && ResolvesAll(lookup)
    ensures Render(toks, lookup, escape, "", open)
         == LeavesMeaning(Body(toks), lookup, escape) + Render(AfterBody(toks), lookup, escape, "", "")
  {
    if IsLeaf(toks[0]) {
      RendersTheBody(toks[1..], lookup, escape, open);
      LeafFirst(toks, lookup, escape, open);
      LeavesFirst(LeafOf(toks[0]), Body(toks[1..]), lookup, escape);
      Associate(LeafMeaning(LeafOf(toks[0]), lookup, escape), LeavesMeaning(Body(toks[1..]), lookup, escape),
                Render(AfterBody(toks), lookup, escape, "", ""));
      hide Render, LeavesMeaning, LeafMeaning;
    }
  }

  lemma LeafFirst(toks: seq<Token>, lookup: string -> Option<string>, escape: string -> string, inBlock: string)
    requires toks != [] && IsLeaf(toks[0]) && (toks[0].kind == Subst ==> lookup(toks[0].name).Some?)
    ensures Render(toks, lookup, escape, "", inBlock)
         == LeafMeaning(LeafOf(toks[0]), lookup, escape) + Render(toks[1..], lookup, escape, "", inBlock)
  {
  }

  lemma LeavesFirst(leaf: Leaf, rest: seq<Leaf>, lookup: string -> Option<string>, escape: string -> string)
    ensures LeavesMeaning([leaf] + rest, lookup, escape)
         == LeafMeaning(leaf, lookup, escape) + LeavesMeaning(rest, lookup, escape)
  {
    assert ([leaf] + rest)[1..] == rest;
  }

  lemma Associate(a: string, b: string, c: string)
    ensures a + (b + c) == (a + b) + c
  {
  }

  /** On balanced tokens the two-register walk computes the tree's meaning, whatever a
      skipped block left in the inBlock register. */
  lemma {:induction false} RenderIsMeaning(toks: seq<Token>, lookup: string -> Option<string>, escape: string -> string,
                                           inBlock: string)
    requires Balanced(toks, "") && ResolvesAll(lookup)
    ensures Render(toks, lookup, escape, "", inBlock) == Meaning(Tree(toks), lookup, escape)
    decreases |toks|
  {
    if toks != [] {
      if IsLeaf(toks[0]) {
        LeafFirst(toks, lookup, escape, inBlock);
        RenderIsMeaning(toks[1..], lookup, escape, inBlock);
      } else {
        var name := toks[0].name;
        var rest := toks[1..];
        BodyEndsAtItsClose(rest, name);
        if lookup(name) == Some("") {
          SkipsTheBody(rest, lookup, escape, name, name);
          RenderIsMeaning(AfterBody(rest), lookup, escape, name);
        } else {
          RendersTheBody(rest, lookup, escape, name);
          RenderIsMeaning(AfterBody(rest), lookup, escape, "");
        }
      }
    }
  }

  // --- what the validator passes is balanced ----------------------------------------------------

  lemma FlushKeepsBalance(lit: string, toks: seq<Token>, open: string)
    ensures Balanced(Flush(lit) + toks, open) <==> Balanced(toks, open)
  {
    assert [LiteralToken(lit)] + toks != [] && ([LiteralToken(lit)] + toks)[1..] == toks;
    assert [] + toks == toks;
  }

  lemma ParsedNameIsValid(inner: string, raw: string)
    requires ParseTag(inner, raw).Some?
    ensures ParseTag(inner, raw).value.name != ""
    ensures ParseTag(inner, raw).value.kind != Literal
  {
  }

  lemma TagKeepsBalance(tok: Token, tail: seq<Token>, open: string)
    requires tok.name != "" && tok.kind != Literal && CheckTag(tok, open).0 == []
    requires Balanced(tail, CheckTag(tok, open).1)
    ensures Balanced([tok] + tail, open)
  {
    assert ([tok] + tail)[1..] == tail;
  }

  lemma ScanTag(rest: string, lit: string, end: nat, tok: Token)
    requires Opens(rest) && FindClose(rest[2..]) == Some(end)
    requires ParseTag(rest[2..end + 2], rest[..end + 4]) == Some(tok)
    ensures Scan(rest, lit) == Flush(lit) + [tok] + Scan(rest[end + 4..], "")
  {
    hide FindClose, ParseTag, Flush;
  }

  /** A tag the validator passes, and where the rest of the source starts. */
  lemma PassedTag(rest: string, open: string) returns (end: nat, tok: Token, next: string)
    requires Check(rest, open) == [] && Opens(rest)
    ensures FindClose(rest[2..]) == Some(end)
    ensures ParseTag(rest[2..end + 2], rest[..end + 4]) == Some(tok)
    ensures CheckTag(tok, open) == ([], next) && Check(rest[end + 4..], next) == []
  {
    hide FindClose, ParseTag, CheckTag;
    end := FindClose(rest[2..]).value;
    tok := ParseTag(rest[2..end + 2], rest[..end + 4]).value;
    next := CheckTag(tok, open).1;
  }

  /** The validator and the scanner cut the source at the same tags. */
  lemma {:induction false} CheckedIsBalanced(rest: string, lit: string, open: string)
    requires Check(rest, open) == []
    ensures Balanced(Scan(rest, lit), open)
    decreases |rest|
  {
    hide FindClose, ParseTag, Flush, CheckTag, Balanced;
    if rest == "" {
      EndIsBalanced(lit, open);
    } else if !Opens(rest) {
      CheckedIsBalanced(rest[1..], lit + [rest[0]], open);
    } else {
      var end, tok, next := PassedTag(rest, open);
      ParsedNameIsValid(rest[2..end + 2], rest[..end + 4]);
      ScanTag(rest, lit, end, tok);
      CheckedIsBalanced(rest[end + 4..], "", next);
      hide Check, Scan;
      var tail := Scan(rest[end + 4..], "");
      TagKeepsBalance(tok, tail, open);
      FlushKeepsBalance(lit, [tok] + tail, open);
      assert Flush(lit) + [tok] + tail == Flush(lit) + ([tok] + tail);
    }
  }

  lemma EndIsBalanced(lit: string, open: string)
    requires AtEnd(open) == []
    ensures Balanced(Flush(lit), open)
  {
  }

  // --- and the own-line pass does not disturb it ------------------------------------------------

  /** Same tags in the same places; only literal text and own-line marks may differ. */
  predicate SameShape(a: seq<Token>, b: seq<Token>) {
    |a| == |b| && forall i | 0 <= i < |a| ::
      && a[i].kind == b[i].kind && a[i].name == b[i].name
      && a[i].fallback == b[i].fallback && a[i].hasFall == b[i].hasFall
      && (a[i].kind != Literal ==> a[i].text == b[i].text)
  }

  lemma {:induction false} OwnLinesKeepShape(toks: seq<Token>, i: nat)
    requires i <= |toks|
    ensures SameShape(toks, OwnLineFrom(toks, i))
    decreases |toks| - i
  {
    if i < |toks| {
      assert SameShape(toks, OwnLineStep(toks, i));
      hide OwnLineStep;
      OwnLinesKeepShape(OwnLineStep(toks, i), i + 1);
    }
  }

  lemma {:induction false} ShapeDecidesBalance(a: seq<Token>, b: seq<Token>, open: string)
    requires SameShape(a, b) && Balanced(a, open)
    ensures Balanced(b, open)
  {
    if a != [] {
      ShapeDecidesBalance(a[1..], b[1..],
                          if a[0].kind == BlockOpen then a[0].name else if a[0].kind == BlockClose then "" else open);
    }
  }

  /** The names the validator accepts are names the renderer can resolve: the two lists
      agree, for every event. */
  lemma UsableNamesResolve(e: Event)
    ensures ResolvesAll(name => Resolve(e, name))
  {
    hide *;
    forall name | Usable(name)
      ensures Resolve(e, name).Some?
    {
      if HasPrefix(name, PARAMS) {
        ParamResolves(e, name);
      } else {
        VariableResolves(e, name);
      }
    }
    ResolvesEach(name => Resolve(e, name));
  }

  lemma ResolvesEach(lookup: string -> Option<string>)
    requires forall name | Usable(name) :: lookup(name).Some?
    ensures ResolvesAll(lookup)
  {
    hide Usable;
  }

  lemma ParamResolves(e: Event, name: string)
    requires HasPrefix(name, PARAMS) && Usable(name)
    ensures Resolve(e, name).Some?
  {
    hide ToLower, CutParams;
  }

  lemma VariableResolves(e: Event, name: string)
    requires !HasPrefix(name, PARAMS) && Usable(name)
    ensures Resolve(e, name).Some?
  {
    hide ToLower, CutParams, IsReserved;
  }

  /** Every source the validator passes scans to balanced, un-nested blocks of known
      names, and renders, for every event and every escaper, to the meaning of that
      tree: literals, an escaped value or its fallback, a section body if and only if
      its variable has a value. */
  lemma ValidTemplatesRenderTheirMeaning(src: string, e: Event, escape: string -> string)
    requires ValidateField(src) == []
    ensures Balanced(Tokens(src), "")
    ensures RenderText(src, name => Resolve(e, name), escape)
         == Meaning(Tree(Tokens(src)), name => Resolve(e, name), escape)
  {
    CheckedIsBalanced(src, "", "");
    OwnLinesKeepShape(Scan(src, ""), 0);
    ShapeDecidesBalance(Scan(src, ""), Tokens(src), "");
    UsableNamesResolve(e);
    RenderIsMeaning(Tokens(src), name => Resolve(e, name), escape, "");
  }
}
