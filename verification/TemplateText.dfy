/** From the text of a template to what is printed (pkg/notify/template.go:177-256, 423-479,
    596-669): writing a tree down and reading it back gives the tree, and each kind of tag
    prints what its variable holds. */
module TemplateText {
  import opened Basics
  import opened Text
  import opened Template
  import opened TemplateMeaning
  import opened TemplateOwnLine

  // --- a tree, written down --------------------------------------------------------------

  function LeafText(leaf: Leaf): string {
    match leaf
    case Words(text) => text
    case Field(name, hasFall, fallback) => "{{" + (name + if hasFall then "|" + fallback else "") + "}}"
  }

  function LeavesText(leaves: seq<Leaf>): string {
    if leaves == [] then "" else LeafText(leaves[0]) + LeavesText(leaves[1..])
  }

  function ItemText(item: Item): string {
    match item
    case One(leaf) => LeafText(leaf)
    case Section(name, body) => BlockTag('#', name) + (LeavesText(body) + BlockTag('/', name))
  }

  function ItemsText(items: seq<Item>): string {
    if items == [] then "" else ItemText(items[0]) + ItemsText(items[1..])
  }

  predicate ClosesAt(s: string, i: int) {
    0 <= i < |s| && s[i] == '}' && (i + 1 == |s| || s[i + 1] == '}')
  }

  /** No two closing braces, not even with one more brace after it. */
  predicate NoClose(s: string) { forall i | 0 <= i < |s| :: !ClosesAt(s, i) }

  predicate CanBeNamed(name: string) { ValidName(name) && Usable(name) }

  /** Words open no tag, also not with a brace after them; a default closes none. */
  predicate GoodLeaf(leaf: Leaf) {
    match leaf
    case Words(text) => text != "" && !HoldsTag(text) && text[|text| - 1] != '{'
    case Field(name, hasFall, fallback) =>
      CanBeNamed(name) && if hasFall then NoClose(fallback) && !HoldsTag(fallback) else fallback == ""
  }

  /** Good leaves, the words between two tags being one leaf. */
  predicate GoodLeaves(leaves: seq<Leaf>) {
    leaves == []
    || (GoodLeaf(leaves[0]) && (leaves[0].Words? && |leaves| > 1 ==> !leaves[1].Words?) && GoodLeaves(leaves[1..]))
  }

  predicate IsWords(item: Item) { item.One? && item.leaf.Words? }

  predicate GoodItem(item: Item) {
    match item
    case One(leaf) => GoodLeaf(leaf)
    case Section(name, body) => CanBeNamed(name) && GoodLeaves(body)
  }

  predicate GoodItems(items: seq<Item>) {
    items == []
    || (GoodItem(items[0]) && (IsWords(items[0]) && |items| > 1 ==> !IsWords(items[1])) && GoodItems(items[1..]))
  }

  // --- its tokens ------------------------------------------------------------------------

  function LeafToken(leaf: Leaf): Token {
    match leaf
    case Words(text) => LiteralToken(text)
    case Field(name, hasFall, fallback) => Token(Subst, LeafText(leaf), name, fallback, hasFall, false)
  }

  function LeafTokens(leaves: seq<Leaf>): seq<Token> {
    if leaves == [] then [] else [LeafToken(leaves[0])] + LeafTokens(leaves[1..])
  }

  function ItemTokens(item: Item): seq<Token> {
    match item
    case One(leaf) => [LeafToken(leaf)]
    case Section(name, body) => [BlockToken('#', name)] + (LeafTokens(body) + [BlockToken('/', name)])
  }

  function ItemsTokens(items: seq<Item>): seq<Token> {
    if items == [] then [] else ItemTokens(items[0]) + ItemsTokens(items[1..])
  }

  // --- scanning gives these tokens -------------------------------------------------------

  lemma NoCloseInTail(s: string)
    requires NoClose(s) && s != ""
    ensures NoClose(s[1..]) && !ClosesAt(s, 0)
  {
    forall i | 0 <= i < |s[1..]|
      ensures !ClosesAt(s[1..], i)
    {
      assert !ClosesAt(s, i + 1);
    }
  }

  lemma {:induction false} FindsTheClose(s: string, rest: string)
    requires NoClose(s)
    ensures FindClose(s + "}}" + rest) == Some(|s|)
  {
    hide NoClose;
    var t := s + "}}" + rest;
    if s != "" {
      NoCloseInTail(s);
      assert t[1..] == s[1..] + "}}" + rest;
      FindsTheClose(s[1..], rest);
      assert t[0] == s[0] && (|s| > 1 ==> t[1] == s[1]);
    }
  }

  lemma {:induction false} PipeIsFirst(name: string, rest: string)
    requires '|' !in name
    ensures FirstPipe(name + "|" + rest) == |name|
  {
    var s := name + "|" + rest;
    assert s[|name|] == '|';
    if name != "" {
      assert s[0] == name[0];
      assert s[1..] == name[1..] + "|" + rest;
      PipeIsFirst(name[1..], rest);
    }
  }

  lemma NamesHoldNoPipe(name: string)
    requires ValidName(name)
    ensures '|' !in name && name[0] != '#' && name[0] != '/' && NoClose(name)
  {
    NamesAreSolid(name);
    if HasPrefix(name, PARAMS) {
      forall i | 0 <= i < |name|
        ensures name[i] != '|'
      {
        if i < |PARAMS| {
          assert name[i] == PARAMS[i];
        } else {
          assert name[i] == CutParams(name)[i - |PARAMS|];
        }
      }
      assert name[0] == PARAMS[0];
    }
  }

  /** The text between the braces of a substitution. */
  function Inner(name: string, hasFall: bool, fallback: string): string {
    name + if hasFall then "|" + fallback else ""
  }

  lemma ParsesAsDefault(inner: string, raw: string, name: string, fallback: string)
    requires '|' in inner && FirstPipe(inner) == |name| < |inner|
    requires inner[..|name|] == name && inner[|name| + 1..] == fallback
    requires Trim(name) == name && ValidName(name)
    requires Trim(inner) != "" && Trim(inner)[0] != '#' && Trim(inner)[0] != '/'
    ensures ParseTag(inner, raw) == Some(Token(Subst, raw, name, fallback, true, false))
  {
    hide Trim, ValidName, FirstPipe;
  }

  lemma ParsesAsName(inner: string, raw: string)
    requires '|' !in inner && Trim(inner) == inner && ValidName(inner)
    requires inner != "" && inner[0] != '#' && inner[0] != '/'
    ensures ParseTag(inner, raw) == Some(Token(Subst, raw, inner, "", false, false))
  {
    hide Trim, ValidName, FirstPipe;
  }

  lemma InnerHoldsNoClose(name: string, hasFall: bool, fallback: string)
    requires NoBrace(name) && (hasFall ==> NoClose(fallback))
    ensures NoClose(Inner(name, hasFall, fallback))
  {
    var inner := Inner(name, hasFall, fallback);
    forall i | 0 <= i < |inner|
      ensures !ClosesAt(inner, i)
    {
      if i < |name| {
        assert inner[i] == name[i];
      } else if i > |name| {
        assert !ClosesAt(fallback, i - |name| - 1);
      }
    }
  }

  lemma DefaultParses(name: string, fallback: string, raw: string)
    requires ValidName(name)
    ensures ParseTag(name + "|" + fallback, raw) == Some(Token(Subst, raw, name, fallback, true, false))
  {
    NamesAreSolid(name);
    NamesHoldNoPipe(name);
    hide ValidName, Trim, NoBrace, ParseTag, NoClose, FirstPipe;
    var inner := name + "|" + fallback;
    PipeIsFirst(name, fallback);
    assert inner[|name|] == '|';
    assert inner == name + ("|" + fallback);
    TrimKeepsFront(name, "|" + fallback);
    assert inner[..|name|] == name && inner[|name| + 1..] == fallback;
    ParsesAsDefault(inner, raw, name, fallback);
  }

  lemma FieldParses(name: string, hasFall: bool, fallback: string)
    requires CanBeNamed(name) && (hasFall ==> NoClose(fallback)) && (!hasFall ==> fallback == "")
    ensures var leaf := Field(name, hasFall, fallback);
            ParseTag(Inner(name, hasFall, fallback), LeafText(leaf)) == Some(LeafToken(leaf))
    ensures NoClose(Inner(name, hasFall, fallback))
  {
    hide ValidName, Usable, Trim, ParseTag, NoBrace, NoClose;
    NamesAreSolid(name);
    NamesHoldNoPipe(name);
    InnerHoldsNoClose(name, hasFall, fallback);
    var raw := LeafText(Field(name, hasFall, fallback));
    if hasFall {
      DefaultParses(name, fallback, raw);
      assert Inner(name, hasFall, fallback) == name + "|" + fallback;
    } else {
      assert Inner(name, hasFall, fallback) == name;
      ParsesAsName(name, raw);
    }
  }

  lemma {:induction false} TrimKeepsFront(name: string, rest: string)
    requires name != "" && !IsBlank(name[0])
    ensures Trim(name + rest) != "" && Trim(name + rest)[0] == name[0]
  {
    var s := name + rest;
    assert TrimLeft(s, IsBlank) == s;
    TrimRightKeepsFront(s);
  }

  lemma {:induction false} TrimRightKeepsFront(s: string)
    requires s != "" && !IsBlank(s[0])
    ensures TrimRight(s, IsBlank) != "" && TrimRight(s, IsBlank)[0] == s[0]
  {
    if IsBlank(s[|s| - 1]) {
      TrimRightKeepsFront(s[..|s| - 1]);
    }
  }

  /** What is left starts with a tag, or is nothing. */
  predicate TagStarts(rest: string) {
    rest == ""
    || (Opens(rest) && var end := FindClose(rest[2..]);
        end.Some? && ParseTag(rest[2..end.value + 2], rest[..end.value + 4]).Some?)
  }

  lemma FlushFirst(rest: string, lit: string)
    requires TagStarts(rest)
    ensures Scan(rest, lit) == Flush(lit) + Scan(rest, "")
  {
    hide FindClose, ParseTag, Scan, Flush;
    if rest == "" {
      NothingScans(lit);
    } else {
      var end := FindClose(rest[2..]).value;
      var tok := ParseTag(rest[2..end + 2], rest[..end + 4]).value;
      ScanTag(rest, lit, end, tok);
      ScanTag(rest, "", end, tok);
      NothingScans("");
      InFront(Flush(lit), tok, Scan(rest[end + 4..], ""));
    }
  }

  lemma NothingScans(lit: string)
    ensures Scan("", lit) == Flush(lit) + Scan("", "") && Flush("") == []
  {
  }

  lemma InFront(a: seq<Token>, tok: Token, b: seq<Token>)
    ensures a + [tok] + b == a + ([] + [tok] + b) && [] + [tok] == [tok]
  {
  }

  lemma {:induction false} WordsAreCollected(text: string, rest: string, lit: string)
    requires !HoldsTag(text) && (text == "" || text[|text| - 1] != '{')
    ensures Scan(text + rest, lit) == Scan(rest, lit + text)
    decreases |text|
  {
    if text == "" {
      assert text + rest == rest && lit + text == lit;
    } else {
      var s := text + rest;
      assert s[0] == text[0] && (|text| > 1 ==> s[1] == text[1]);
      assert s[1..] == text[1..] + rest;
      assert !Opens(s);
      WordsAreCollected(text[1..], rest, lit + [text[0]]);
      assert lit + [text[0]] + text[1..] == lit + text;
    }
  }

  /** Where a tag that stands in front ends. */
  lemma RawStands(inner: string, raw: string, rest: string)
    requires NoClose(inner) && raw == "{{" + inner + "}}"
    ensures var s, end := raw + rest, |inner|;
            && Opens(s) && FindClose(s[2..]) == Some(end)
            && s[2..end + 2] == inner && s[..end + 4] == raw && s[end + 4..] == rest
  {
    var s := raw + rest;
    assert s[2..] == inner + "}}" + rest;
    FindsTheClose(inner, rest);
    hide FindClose, NoClose;
  }

  /** It is scanned as that tag. */
  lemma TagStands(inner: string, raw: string, rest: string, tok: Token)
    requires NoClose(inner) && raw == "{{" + inner + "}}" && ParseTag(inner, raw) == Some(tok)
    ensures TagStarts(raw + rest)
    ensures Scan(raw + rest, "") == [tok] + Scan(rest, "")
  {
    hide ParseTag, FindClose, Scan, NoClose, Opens, Flush;
    RawStands(inner, raw, rest);
    ScanTag(raw + rest, "", |inner|, tok);
    NothingScans("");
    InFront([], tok, Scan(rest, ""));
  }

  lemma FieldStands(leaf: Leaf, rest: string)
    requires leaf.Field? && GoodLeaf(leaf)
    ensures TagStarts(LeafText(leaf) + rest)
    ensures Scan(LeafText(leaf) + rest, "") == [LeafToken(leaf)] + Scan(rest, "")
  {
    hide CanBeNamed, ParseTag, NoClose, TagStarts, Scan, HoldsTag;
    FieldParses(leaf.name, leaf.hasFall, leaf.fallback);
    TagStands(Inner(leaf.name, leaf.hasFall, leaf.fallback), LeafText(leaf), rest, LeafToken(leaf));
  }

  lemma BlockStands(sign: char, name: string, rest: string)
    requires CanBeNamed(name) && (sign == '#' || sign == '/')
    ensures TagStarts(BlockTag(sign, name) + rest)
    ensures Scan(BlockTag(sign, name) + rest, "") == [BlockToken(sign, name)] + Scan(rest, "")
  {
    hide ParseTag, TagStarts, Scan, ValidName, Usable, NoClose, NoBrace, BlockToken, Trim;
    BlockTagParses(sign, name);
    NamesAreSolid(name);
    SignHoldsNoClose(sign, name);
    assert BlockTag(sign, name) == "{{" + ([sign] + name) + "}}";
    TagStands([sign] + name, BlockTag(sign, name), rest, BlockToken(sign, name));
  }

  lemma SignHoldsNoClose(sign: char, name: string)
    requires NoBrace(name) && (sign == '#' || sign == '/')
    ensures NoClose([sign] + name)
  {
  }

  lemma {:induction false} LeavesScan(leaves: seq<Leaf>, tail: string)
    requires GoodLeaves(leaves) && TagStarts(tail)
    ensures Scan(LeavesText(leaves) + tail, "") == LeafTokens(leaves) + Scan(tail, "")
    ensures leaves == [] || !leaves[0].Words? ==> TagStarts(LeavesText(leaves) + tail)
  {
    hide Scan, TagStarts, GoodLeaf, LeafText;
    if leaves == [] {
      assert LeavesText(leaves) + tail == tail;
      assert LeafTokens(leaves) + Scan(tail, "") == Scan(tail, "");
    } else {
      var rest := LeavesText(leaves[1..]) + tail;
      LeavesScan(leaves[1..], tail);
      assert LeavesText(leaves) + tail == LeafText(leaves[0]) + rest;
      OneLeafScans(leaves[0], rest);
      assert [LeafToken(leaves[0])] + LeafTokens(leaves[1..]) + Scan(tail, "")
          == [LeafToken(leaves[0])] + (LeafTokens(leaves[1..]) + Scan(tail, ""));
    }
  }

  lemma OneLeafScans(leaf: Leaf, rest: string)
    requires GoodLeaf(leaf) && (leaf.Words? ==> TagStarts(rest))
    ensures Scan(LeafText(leaf) + rest, "") == [LeafToken(leaf)] + Scan(rest, "")
    ensures !leaf.Words? ==> TagStarts(LeafText(leaf) + rest)
  {
    hide Scan, TagStarts, CanBeNamed, HoldsTag, NoClose;
    if leaf.Words? {
      WordsAreCollected(leaf.text, rest, "");
      FlushFirst(rest, leaf.text);
      assert "" + leaf.text == leaf.text;
    } else {
      FieldStands(leaf, rest);
    }
  }

  lemma SectionScans(name: string, body: seq<Leaf>, rest: string)
    requires CanBeNamed(name) && GoodLeaves(body)
    ensures Scan(ItemText(Section(name, body)) + rest, "") == ItemTokens(Section(name, body)) + Scan(rest, "")
    ensures TagStarts(ItemText(Section(name, body)) + rest)
  {
    hide Scan, TagStarts, CanBeNamed, GoodLeaves, BlockTag, BlockToken, LeavesText, LeafTokens;
    var close := BlockTag('/', name) + rest;
    BlockStands('/', name, rest);
    LeavesScan(body, close);
    BlockStands('#', name, LeavesText(body) + close);
    assert ItemText(Section(name, body)) + rest == BlockTag('#', name) + (LeavesText(body) + close);
    assert [BlockToken('#', name)] + (LeafTokens(body) + ([BlockToken('/', name)] + Scan(rest, "")))
        == ItemTokens(Section(name, body)) + Scan(rest, "");
  }

  /** Scanning what was written gives the tokens of the tree, one for each tag and each text. */
  lemma {:induction false} ItemsScan(items: seq<Item>)
    requires GoodItems(items)
    ensures Scan(ItemsText(items), "") == ItemsTokens(items)
    ensures items == [] || !IsWords(items[0]) ==> TagStarts(ItemsText(items))
  {
    if items == [] {
      return;
    }
    hide Scan, TagStarts, GoodItem, ItemText, ItemTokens;
    ItemsScan(items[1..]);
    OneItemScans(items[0], ItemsText(items[1..]));
  }

  lemma OneItemScans(item: Item, rest: string)
    requires GoodItem(item) && (IsWords(item) ==> TagStarts(rest))
    ensures Scan(ItemText(item) + rest, "") == ItemTokens(item) + Scan(rest, "")
    ensures !IsWords(item) ==> TagStarts(ItemText(item) + rest)
  {
    hide Scan, TagStarts, GoodLeaf, GoodLeaves, CanBeNamed, LeafText, LeavesText;
    match item {
      case One(leaf) => OneLeafScans(leaf, rest);
      case Section(name, body) => SectionScans(name, body, rest);
    }
  }

  // --- and those tokens are that tree ----------------------------------------------------

  lemma {:induction false} LeavesAreTheBody(leaves: seq<Leaf>, name: string, rest: seq<Token>)
    requires GoodLeaves(leaves) && CanBeNamed(name)
    ensures var toks := LeafTokens(leaves) + ([BlockToken('/', name)] + rest);
            && Body(toks) == leaves && AfterBody(toks) == rest
            && (Balanced(rest, "") ==> Balanced(toks, name))
  {
    hide ValidName, Usable, HoldsTag, NoClose, GoodLeaf, LeafText, BlockTag;
    var toks := LeafTokens(leaves) + ([BlockToken('/', name)] + rest);
    if leaves == [] {
      assert toks == [BlockToken('/', name)] + rest && toks[1..] == rest;
    } else {
      LeavesAreTheBody(leaves[1..], name, rest);
      assert toks == [LeafToken(leaves[0])] + (LeafTokens(leaves[1..]) + ([BlockToken('/', name)] + rest));
      hide LeafTokens, LeafToken, BlockToken, Body, AfterBody, Balanced;
      LeafInFront(leaves[0], LeafTokens(leaves[1..]) + ([BlockToken('/', name)] + rest), name);
      assert [leaves[0]] + leaves[1..] == leaves;
    }
  }

  lemma LeafInFront(leaf: Leaf, toks: seq<Token>, name: string)
    requires GoodLeaf(leaf)
    ensures Body([LeafToken(leaf)] + toks) == [leaf] + Body(toks)
    ensures AfterBody([LeafToken(leaf)] + toks) == AfterBody(toks)
    ensures Balanced([LeafToken(leaf)] + toks, name) <==> Balanced(toks, name)
  {
    hide ValidName, Usable, HoldsTag, NoClose;
    assert ([LeafToken(leaf)] + toks)[1..] == toks;
  }

  lemma LeafOfTheTree(leaf: Leaf, rest: seq<Token>)
    requires GoodLeaf(leaf) && Balanced(rest, "")
    ensures Balanced([LeafToken(leaf)] + rest, "")
    ensures Tree([LeafToken(leaf)] + rest) == [One(leaf)] + Tree(rest)
  {
    hide ValidName, Usable, HoldsTag, NoClose;
    assert ([LeafToken(leaf)] + rest)[1..] == rest;
  }

  lemma SectionOfTheTree(name: string, after: seq<Token>, body: seq<Leaf>, rest: seq<Token>)
    requires CanBeNamed(name) && Balanced(rest, "") && Balanced(after, name)
    requires Body(after) == body && AfterBody(after) == rest
    ensures Balanced([BlockToken('#', name)] + after, "")
    ensures Tree([BlockToken('#', name)] + after) == [Section(name, body)] + Tree(rest)
  {
    hide ValidName, Usable, Body, AfterBody, BlockTag;
    assert ([BlockToken('#', name)] + after)[1..] == after;
  }

  lemma OneItemOfTheTree(item: Item, rest: seq<Token>)
    requires GoodItem(item) && Balanced(rest, "")
    ensures Balanced(ItemTokens(item) + rest, "")
    ensures Tree(ItemTokens(item) + rest) == [item] + Tree(rest)
  {
    hide GoodLeaf, GoodLeaves, CanBeNamed, Balanced, Tree, LeafTokens, LeafToken, BlockToken;
    match item {
      case One(leaf) =>
        LeafOfTheTree(leaf, rest);
      case Section(name, body) =>
        var after := LeafTokens(body) + ([BlockToken('/', name)] + rest);
        LeavesAreTheBody(body, name, rest);
        SectionOfTheTree(name, after, body, rest);
        assert ItemTokens(item) + rest == [BlockToken('#', name)] + after;
    }
  }

  /** The tokens are balanced, and the tree they are is the one written down. */
  lemma {:induction false} TokensAreTheTree(items: seq<Item>)
    requires GoodItems(items)
    ensures Balanced(ItemsTokens(items), "") && Tree(ItemsTokens(items)) == items
  {
    if items != [] {
      TokensAreTheTree(items[1..]);
      OneItemOfTheTree(items[0], ItemsTokens(items[1..]));
      hide GoodItem, ItemTokens, Balanced, Tree;
      assert [items[0]] + items[1..] == items;
    }
  }

  // --- the validator accepts it ----------------------------------------------------------

  lemma {:induction false} WordsCheck(text: string, rest: string, open: string)
    requires !HoldsTag(text) && (text == "" || text[|text| - 1] != '{')
    ensures Check(text + rest, open) == Check(rest, open)
    decreases |text|
  {
    if text == "" {
      assert text + rest == rest;
    } else {
      var s := text + rest;
      assert s[0] == text[0] && (|text| > 1 ==> s[1] == text[1]);
      assert s[1..] == text[1..] + rest;
      assert !Opens(s);
      WordsCheck(text[1..], rest, open);
    }
  }

  lemma TagChecks(inner: string, raw: string, rest: string, tok: Token, open: string, next: string)
    requires NoClose(inner) && raw == "{{" + inner + "}}" && ParseTag(inner, raw) == Some(tok)
    requires CheckTag(tok, open) == ([], next)
    ensures Check(raw + rest, open) == Check(rest, next)
  {
    hide ParseTag, FindClose, CheckTag, Opens, NoClose, Check;
    RawStands(inner, raw, rest);
    TagInFrontChecks(raw + rest, |inner|, tok, open, next);
  }

  lemma TagInFrontChecks(s: string, end: nat, tok: Token, open: string, next: string)
    requires Opens(s) && FindClose(s[2..]) == Some(end)
    requires ParseTag(s[2..end + 2], s[..end + 4]) == Some(tok) && CheckTag(tok, open) == ([], next)
    ensures Check(s, open) == Check(s[end + 4..], next)
  {
    hide ParseTag, FindClose, CheckTag;
    assert s != "" && [] + Check(s[end + 4..], next) == Check(s[end + 4..], next);
  }

  lemma LeafChecks(leaf: Leaf, rest: string, open: string)
    requires GoodLeaf(leaf)
    ensures Check(LeafText(leaf) + rest, open) == Check(rest, open)
  {
    hide Check, ParseTag, ValidName, NoClose, HoldsTag;
    if leaf.Words? {
      WordsCheck(leaf.text, rest, open);
    } else {
      FieldParses(leaf.name, leaf.hasFall, leaf.fallback);
      assert CheckTag(LeafToken(leaf), open) == ([], open);
      TagChecks(Inner(leaf.name, leaf.hasFall, leaf.fallback), LeafText(leaf), rest, LeafToken(leaf), open, open);
    }
  }

  lemma {:induction false} LeavesCheck(leaves: seq<Leaf>, rest: string, open: string)
    requires GoodLeaves(leaves)
    ensures Check(LeavesText(leaves) + rest, open) == Check(rest, open)
  {
    hide Check, GoodLeaf, LeafText;
    if leaves == [] {
      assert LeavesText(leaves) + rest == rest;
    } else {
      LeafChecks(leaves[0], LeavesText(leaves[1..]) + rest, open);
      assert LeavesText(leaves) + rest == LeafText(leaves[0]) + (LeavesText(leaves[1..]) + rest);
      LeavesCheck(leaves[1..], rest, open);
    }
  }

  lemma BlockChecks(sign: char, name: string, rest: string, open: string)
    requires CanBeNamed(name) && ((sign == '#' && open == "") || (sign == '/' && open == name))
    ensures Check(BlockTag(sign, name) + rest, open) == Check(rest, if sign == '#' then name else "")
  {
    hide Check, ValidName, IsReserved, IsOffered, BlockTag;
    BlockTagChecks(sign, name, rest, open);
  }

  lemma SectionChecks(name: string, body: seq<Leaf>, rest: string)
    requires CanBeNamed(name) && GoodLeaves(body)
    ensures Check(ItemText(Section(name, body)) + rest, "") == Check(rest, "")
  {
    hide Check, GoodLeaves, CanBeNamed, BlockTag, LeavesText;
    var close := BlockTag('/', name) + rest;
    assert ItemText(Section(name, body)) + rest == BlockTag('#', name) + (LeavesText(body) + close);
    BlockChecks('#', name, LeavesText(body) + close, "");
    LeavesCheck(body, close, name);
    BlockChecks('/', name, rest, name);
  }

  lemma ItemChecks(item: Item, rest: string)
    requires GoodItem(item)
    ensures Check(ItemText(item) + rest, "") == Check(rest, "")
  {
    hide Check, GoodLeaf, GoodLeaves, CanBeNamed, LeafText, BlockTag, LeavesText;
    match item {
      case One(leaf) => LeafChecks(leaf, rest, "");
      case Section(name, body) => SectionChecks(name, body, rest);
    }
  }

  lemma {:induction false} ItemsCheck(items: seq<Item>)
    requires GoodItems(items)
    ensures Check(ItemsText(items), "") == []
  {
    if items != [] {
      hide Check, GoodItem, ItemText;
      ItemChecks(items[0], ItemsText(items[1..]));
      ItemsCheck(items[1..]);
    }
  }

  /** Every tree written down within the length is a template the validator accepts. */
  lemma WrittenTemplatesAreValid(items: seq<Item>)
    requires GoodItems(items) && |ItemsText(items)| <= 8192
    ensures ValidateField(ItemsText(items)) == []
  {
    ItemsCheck(items);
  }

  // --- what it prints --------------------------------------------------------------------

  lemma {:induction false} NothingAloneStays(toks: seq<Token>, i: nat)
    requires i <= |toks| && forall k | 0 <= k < |toks| :: !Alone(toks, k)
    ensures OwnLineFrom(toks, i) == toks
    decreases |toks| - i
  {
    hide Alone;
    if i < |toks| {
      NothingAloneStays(toks, i + 1);
    }
  }

  /** No section tag of the tree stands alone on its line. */
  ghost predicate NoneAlone(items: seq<Item>) {
    forall k | 0 <= k < |ItemsTokens(items)| :: !Alone(ItemsTokens(items), k)
  }

  /** A tree written down renders, for every lookup and every escaper, to its own meaning: reading
      the text gives the tree back, and where no section tag has a line to itself no text is lost. */
  lemma WrittenTemplatesRender(items: seq<Item>, lookup: string -> Option<string>, escape: string -> string)
    requires GoodItems(items) && NoneAlone(items) && ResolvesAll(lookup)
    ensures RenderText(ItemsText(items), lookup, escape) == Meaning(items, lookup, escape)
  {
    hide Scan, Balanced, Tree, Meaning, Template.Render, GoodItems, ItemsText, ItemsTokens, ResolvesAll;
    ItemsScan(items);
    TokensAreTheTree(items);
    NothingAloneStays(ItemsTokens(items), 0);
    RenderIsMeaning(ItemsTokens(items), lookup, escape, "");
  }

  // --- what each tag prints, from its text -----------------------------------------------

  /** The value a name stands for: an escape for two braces, a parameter or nothing, or a field. */
  function ValueOf(e: Event, name: string): string {
    if name == "lb" then "{{"
    else if "params." <= name then (if name[7..] in e.params then e.params[name[7..]] else "")
    else e.field(name)
  }

  lemma NamesResolveToTheirValue(e: Event, name: string)
    requires Usable(name)
    ensures Resolve(e, name) == Some(ValueOf(e, name))
  {
    hide ToLower;
    if HasPrefix(name, PARAMS) {
      assert name[0] == PARAMS[0] && CutParams(name) == name[7..];
    } else {
      VariableResolves(e, name);
    }
  }

  lemma OneTag(leaf: Leaf, lookup: string -> Option<string>, escape: string -> string)
    requires leaf.Field? && GoodLeaf(leaf) && ResolvesAll(lookup)
    ensures RenderText(LeafText(leaf), lookup, escape) == LeafMeaning(leaf, lookup, escape)
  {
    hide GoodLeaf, LeafMeaning, LeafText, RenderText, ResolvesAll;
    var items := [One(leaf)];
    assert items[1..] == [] && LeafText(leaf) + "" == LeafText(leaf);
    assert ItemsText([]) == "" && ItemsTokens([]) == [] && Meaning([], lookup, escape) == "";
    assert ItemsText(items) == LeafText(leaf);
    assert ItemsTokens(items) == [LeafToken(leaf)];
    assert Meaning(items, lookup, escape) == LeafMeaning(leaf, lookup, escape);
    assert !IsBlock(LeafToken(leaf));
    WrittenTemplatesRender(items, lookup, escape);
  }

  /** {{name}} prints the value of that name, escaped. */
  lemma TagsPrintTheirValue(e: Event, name: string, escape: string -> string)
    requires CanBeNamed(name)
    ensures RenderText("{{" + name + "}}", n => Resolve(e, n), escape) == escape(ValueOf(e, name))
  {
    hide ValidName, IsOffered, IsReserved, ValueOf, RenderText, Resolve;
    UsableNamesResolve(e);
    NamesResolveToTheirValue(e, name);
    var leaf := Field(name, false, "");
    OneTag(leaf, n => Resolve(e, n), escape);
    assert LeafText(leaf) == "{{" + name + "}}";
  }

  /** {{name|text}} prints the text as it stands when there is no value, and else the value. */
  lemma DefaultsPrintExactlyWhenEmpty(e: Event, name: string, text: string, escape: string -> string)
    requires CanBeNamed(name) && NoClose(text) && !HoldsTag(text)
    ensures RenderText("{{" + name + "|" + text + "}}", n => Resolve(e, n), escape)
         == if ValueOf(e, name) == "" then text else escape(ValueOf(e, name))
  {
    hide ValidName, IsOffered, IsReserved, ValueOf, RenderText, Resolve, NoClose, HoldsTag;
    UsableNamesResolve(e);
    NamesResolveToTheirValue(e, name);
    var leaf := Field(name, true, text);
    OneTag(leaf, n => Resolve(e, n), escape);
    assert LeafText(leaf) == "{{" + name + "|" + text + "}}";
  }

  lemma OneLineSection(name: string, body: string)
    requires CanBeNamed(name) && GoodLeaf(Words(body)) && '\n' !in body
    ensures GoodItems([Section(name, [Words(body)])]) && NoneAlone([Section(name, [Words(body)])])
    ensures ItemsText([Section(name, [Words(body)])]) == "{{#" + name + "}}" + body + "{{/" + name + "}}"
  {
    hide CanBeNamed, GoodLeaf;
    var item := Section(name, [Words(body)]);
    assert [item][1..] == [] && [Words(body)][1..] == [];
    assert GoodLeaves([]) && GoodLeaves([Words(body)]) && GoodItem(item);
    assert GoodItems([]) && GoodItems([item]);
    assert ItemsTokens([]) == [] && ItemsText([]) == "" && LeafTokens([]) == [] && LeavesText([]) == "";
    assert LeafTokens([Words(body)]) == [LiteralToken(body)];
    assert LeavesText([Words(body)]) == body;
    assert ItemsTokens([item]) == [BlockToken('#', name), LiteralToken(body), BlockToken('/', name)];
    assert ItemsText([item]) == BlockTag('#', name) + (body + BlockTag('/', name));
  }

  /** {{#name}}body{{/name}} prints the body exactly when there is a value. */
  lemma SectionsShowExactlyWhenSet(e: Event, name: string, body: string, escape: string -> string)
    requires CanBeNamed(name) && GoodLeaf(Words(body)) && '\n' !in body
    ensures RenderText("{{#" + name + "}}" + body + "{{/" + name + "}}", n => Resolve(e, n), escape)
         == if ValueOf(e, name) == "" then "" else body
  {
    hide ValidName, IsOffered, IsReserved, ValueOf, RenderText, Resolve, HoldsTag, GoodItems, NoneAlone, ItemsText;
    UsableNamesResolve(e);
    NamesResolveToTheirValue(e, name);
    OneLineSection(name, body);
    var items := [Section(name, [Words(body)])];
    WrittenTemplatesRender(items, n => Resolve(e, n), escape);
    assert items[1..] == [] && [Words(body)][1..] == [];
    var lookup := (n: string) => Resolve(e, n);
    assert Meaning([], lookup, escape) == "" && LeavesMeaning([], lookup, escape) == "";
    assert LeavesMeaning([Words(body)], lookup, escape) == body;
  }
}
