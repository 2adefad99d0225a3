/** The message-template language (pkg/notify/template.go): scanner, own-line pass,
    renderer and validator. Offsets, which only place an error message, are left out. */
module Template {
  import opened Basics
  import opened Text

  const MAX_TEMPLATE_LEN := 8192

  datatype TokenKind = Literal | Subst | BlockOpen | BlockClose

  datatype Token = Token(kind: TokenKind, text: string, name: string, fallback: string, hasFall: bool, ownLine: bool)

  function LiteralToken(text: string): Token { Token(Literal, text, "", "", false, false) }

  predicate IsBlock(t: Token) { t.kind == BlockOpen || t.kind == BlockClose }

  // --- names ---------------------------------------------------------------------

  const PARAMS := "params."

  const RESERVED := ["secret", "password", "token", "community", "authpass", "privpass", "apikey"]

  /** The vocabulary offered and checked against. */
  const VARIABLES :=
    ["severity", "severityUpper", "severityNumber", "category", "kind", "state", "summary", "source", "oid",
     "sessionName", "sessionId", "dedupKey", "corrId", "id", "seq", "ts", "tsLocal", "value", "hostname",
     "appVersion", "sinkName", "lb"]

  predicate IsLower(c: char) { 'a' <= c <= 'z' }

  predicate IsUpper(c: char) { 'A' <= c <= 'Z' }

  predicate IsNameChar(c: char) { IsLower(c) || IsUpper(c) || IsDigit(c) }

  predicate HasPrefix(s: string, prefix: string) { prefix <= s }

  function CutParams(name: string): string {
    if HasPrefix(name, PARAMS) then name[|PARAMS|..] else name
  }

  predicate ValidName(s: string) {
    if HasPrefix(s, PARAMS) then
      var rest := CutParams(s);
      rest != "" && |rest| <= 64 && forall i | 0 <= i < |rest| :: IsNameChar(rest[i]) || rest[i] == '_'
    else
      s != "" && |s| <= 64 && IsLower(s[0]) && forall i | 0 <= i < |s| :: IsNameChar(s[i])
  }

  function LowerChar(c: char): char {
    if IsUpper(c) then ((c as int) + 32) as char else c
  }

  function ToLower(s: string): string { seq(|s|, i requires 0 <= i < |s| => LowerChar(s[i])) }

  function Trim(s: string): string { TrimRight(TrimLeft(s, IsBlank), IsBlank) }

  // --- scanning --------------------------------------------------------------------

  predicate Opens(s: string) { |s| >= 2 && s[0] == '{' && s[1] == '{' }

  /** Where the first two closing braces are. */
  function FindClose(s: string): (at: Option<nat>)
    ensures at.Some? ==> at.value + 2 <= |s|
  {
    if |s| < 2 then None
    else if s[0] == '}' && s[1] == '}' then Some(0)
    else match FindClose(s[1..]) case Some(k) => Some(k + 1) case None => None
  }

  function FirstPipe(s: string): (at: nat)
    requires '|' in s
    ensures at < |s|
  {
    if s[0] == '|' then 0 else 1 + FirstPipe(s[1..])
  }

  /** The text between the braces, read as a tag. */
  function ParseTag(inner: string, raw: string): Option<Token> {
    var trimmed := Trim(inner);
    if trimmed == "" then None
    else if trimmed[0] == '#' || trimmed[0] == '/' then
      var name := Trim(trimmed[1..]);
      if !ValidName(name) then None
      else Some(Token(if trimmed[0] == '/' then BlockClose else BlockOpen, raw, name, "", false, false))
    else if '|' in inner then
      var pipe := FirstPipe(inner);
      var name := Trim(inner[..pipe]);
      if !ValidName(name) then None
      else Some(Token(Subst, raw, name, inner[pipe + 1..], true, false))
    else if !ValidName(trimmed) then None
    else Some(Token(Subst, raw, trimmed, "", false, false))
  }

  function Flush(lit: string): seq<Token> {
    if lit == "" then [] else [LiteralToken(lit)]
  }

  /** Tokens of the rest of a source, after literal text not yet flushed. */
  function Scan(rest: string, lit: string): seq<Token>
    decreases |rest|
  {
    if rest == "" then Flush(lit)
    else if !Opens(rest) then Scan(rest[1..], lit + [rest[0]])
    else match FindClose(rest[2..])
      case None => Flush(lit + rest)
      case Some(end) =>
        match ParseTag(rest[2..end + 2], rest[..end + 4])
        case None => Scan(rest[end + 4..], lit + rest[..end + 4])
        case Some(tok) => Flush(lit) + [tok] + Scan(rest[end + 4..], "")
  }

  // --- the own-line pass, in place --------------------------------------------------

  predicate HasNewline(s: string) { '\n' in s }

  predicate AllBlank(s: string) { forall i | 0 <= i < |s| :: IsBlank(s[i]) }

  /** What follows the last newline, or everything. */
  function LastLine(s: string): string {
    if s == "" || s[|s| - 1] == '\n' then "" else LastLine(s[..|s| - 1]) + [s[|s| - 1]]
  }

  /** What precedes the first newline, or everything. */
  function FirstLine(s: string): string {
    if s == "" || s[0] == '\n' then "" else [s[0]] + FirstLine(s[1..])
  }

  function AfterFirstLine(s: string): string
    requires HasNewline(s)
  {
    if s[0] == '\n' then s[1..] else AfterFirstLine(s[1..])
  }

  predicate BlankBefore(toks: seq<Token>, i: nat)
    requires i < |toks|
  {
    i == 0
    || (toks[i - 1].kind == Literal && AllBlank(LastLine(toks[i - 1].text))
        && (HasNewline(toks[i - 1].text) || i - 1 == 0))
  }

  predicate BlankAfter(toks: seq<Token>, i: nat)
    requires i < |toks|
  {
    i == |toks| - 1
    || (toks[i + 1].kind == Literal && AllBlank(FirstLine(toks[i + 1].text))
        && (HasNewline(toks[i + 1].text) || i + 1 == |toks| - 1))
  }

  /** A block tag that stands alone on its line. */
  predicate Alone(toks: seq<Token>, i: nat)
    requires i < |toks|
  {
    IsBlock(toks[i]) && BlankBefore(toks, i) && BlankAfter(toks, i)
  }

  function TrimTail(s: string): string { TrimRight(s, IsBlank) }

  function TrimLine(s: string): string {
    if HasNewline(s) then AfterFirstLine(s) else TrimLeft(s, IsBlank)
  }

  /** One round of the pass, at tag i. */
  function OwnLineStep(toks: seq<Token>, i: nat): (r: seq<Token>)
    requires i < |toks|
    ensures |r| == |toks|
  {
    if !Alone(toks, i) then toks
    else
      var t := toks[i := toks[i].(ownLine := true)];
      var u := if i > 0 then t[i - 1 := t[i - 1].(text := TrimTail(t[i - 1].text))] else t;
      if i + 1 < |u| then u[i + 1 := u[i + 1].(text := TrimLine(u[i + 1].text))] else u
  }

  function OwnLineFrom(toks: seq<Token>, i: nat): (r: seq<Token>)
    requires i <= |toks|
    ensures |r| == |toks|
    decreases |toks| - i
  {
    if i == |toks| then toks else OwnLineFrom(OwnLineStep(toks, i), i + 1)
  }

  function OwnLines(toks: seq<Token>): (r: seq<Token>)
    ensures |r| == |toks|
  {
    OwnLineFrom(toks, 0)
  }

  function Tokens(src: string): seq<Token> { OwnLines(Scan(src, "")) }

  // --- rendering ---------------------------------------------------------------------

  /** The flat renderer: two registers, one walk. */
  function Render(toks: seq<Token>, lookup: string -> Option<string>, escape: string -> string,
                  skipUntil: string, inBlock: string): string
    decreases |toks|
  {
    if toks == [] then ""
    else
      var t := toks[0];
      var rest := toks[1..];
      if skipUntil != "" then
        Render(rest, lookup, escape, if t.kind == BlockClose && t.name == skipUntil then "" else skipUntil, inBlock)
      else match t.kind
        case Literal => t.text + Render(rest, lookup, escape, "", inBlock)
        case Subst => SubstText(t, lookup, escape) + Render(rest, lookup, escape, "", inBlock)
        case BlockOpen =>
          (match lookup(t.name)
           case None => t.text + Render(rest, lookup, escape, "", inBlock)
           case Some(value) => Render(rest, lookup, escape, if value == "" then t.name else "", t.name))
        case BlockClose =>
          if inBlock == t.name then Render(rest, lookup, escape, "", "")
          else t.text + Render(rest, lookup, escape, "", inBlock)
  }

  function SubstText(t: Token, lookup: string -> Option<string>, escape: string -> string): string {
    match lookup(t.name)
    case None => t.text
    case Some(value) => if value == "" && t.hasFall then t.fallback else escape(value)
  }

  function RenderText(src: string, lookup: string -> Option<string>, escape: string -> string): string {
    Render(Tokens(src), lookup, escape, "", "")
  }

  /** What an event offers to a template: its fields by variable name, and its params. */
  datatype Event = Event(field: string -> string, params: map<string, string>)

  /** resolveVariable: a switch over the names, never reflection. */
  function Resolve(e: Event, name: string): Option<string> {
    if HasPrefix(name, PARAMS) then
      var key := CutParams(name);
      if ToLower(key) in RESERVED then None
      else if key !in e.params then Some("")
      else Some(e.params[key])
    else if name == "lb" then Some("{{")
    else if || name == "severity" || name == "severityUpper" || name == "severityNumber" || name == "category"
            || name == "kind" || name == "state" || name == "summary" || name == "source" || name == "oid"
            || name == "sessionName" || name == "sessionId" || name == "dedupKey" || name == "corrId"
            || name == "id" || name == "seq" || name == "ts" || name == "tsLocal" || name == "value"
            || name == "hostname" || name == "appVersion" || name == "sinkName"
    then Some(e.field(name))
    else None
  }

  // --- validating -----------------------------------------------------------------------

  datatype Problem =
    | TooLong | NeverTerminated | NotATag | TagInDefault | Reserved(name: string) | Unknown(name: string)
    | Nested(outer: string) | NothingToClose | Expected(open: string) | NeverClosed(open: string)

  predicate HoldsTag(s: string) {
    s != "" && (Opens(s) || HoldsTag(s[1..]))
  }

  predicate IsReserved(name: string) {
    ToLower(name) in RESERVED || ToLower(CutParams(name)) in RESERVED
  }

  predicate IsOffered(name: string) { HasPrefix(name, PARAMS) || name in VARIABLES }

  /** What is wrong with one tag, and which block is open after it. */
  function CheckTag(tok: Token, open: string): (seq<Problem>, string) {
    var first := if tok.hasFall && HoldsTag(tok.fallback) then [TagInDefault] else [];
    if IsReserved(tok.name) then (first + [Reserved(tok.name)], open)
    else if !IsOffered(tok.name) then (first + [Unknown(tok.name)], open)
    else match tok.kind
      case BlockOpen => if open != "" then (first + [Nested(open)], open) else (first, tok.name)
      case BlockClose =>
        if open == "" then (first + [NothingToClose], open)
        else if open != tok.name then (first + [Expected(open)], open)
        else (first, "")
      case _ => (first, open)
  }

  function AtEnd(open: string): seq<Problem> {
    if open == "" then [] else [NeverClosed(open)]
  }

  function Check(rest: string, open: string): seq<Problem>
    decreases |rest|
  {
    if rest == "" then AtEnd(open)
    else if !Opens(rest) then Check(rest[1..], open)
    else match FindClose(rest[2..])
      case None => [NeverTerminated] + AtEnd(open)
      case Some(end) =>
        match ParseTag(rest[2..end + 2], rest[..end + 4])
        case None => [NotATag] + Check(rest[end + 4..], open)
        case Some(tok) =>
          var (found, next) := CheckTag(tok, open);
          found + Check(rest[end + 4..], next)
  }

  function ValidateField(src: string): seq<Problem> {
    if src == "" then [] else if |src| > MAX_TEMPLATE_LEN then [TooLong] else Check(src, "")
  }
}
