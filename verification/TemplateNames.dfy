/** What a tag may name (pkg/notify/template.go:76-82, 258-281, 596-669): the vocabulary, parameters,
    and never a credential. */
module TemplateNames {
  import opened Basics
  import opened Text
  import opened Template
  import opened TemplateMeaning
  import opened TemplateOwnLine
  import opened TemplateText
  import opened TemplateLines

  // --- blanks inside a tag ---------------------------------------------------------------

  lemma {:induction false} BlanksTrimLeft(w: string, s: string)
    requires Blanks(w) && s != "" && s[0] != ' ' && s[0] != '\t'
    ensures TrimLeft(w + s, IsBlank) == s
  {
    if w == "" {
      assert w + s == s;
    } else {
      assert (w + s)[1..] == w[1..] + s;
      BlanksTrimLeft(w[1..], s);
    }
  }

  lemma {:induction false} BlanksTrimRight(s: string, v: string)
    requires Blanks(v) && s != "" && s[|s| - 1] != ' ' && s[|s| - 1] != '\t'
    ensures TrimRight(s + v, IsBlank) == s
  {
    if v == "" {
      assert s + v == s;
    } else {
      assert (s + v)[..|s + v| - 1] == s + v[..|v| - 1];
      BlanksTrimRight(s, v[..|v| - 1]);
    }
  }

  lemma BlanksTrim(w: string, s: string, v: string)
    requires Blanks(w) && Blanks(v) && s != "" && s[0] != ' ' && s[0] != '\t' && s[|s| - 1] != ' ' && s[|s| - 1] != '\t'
    ensures Trim(w + s + v) == s
  {
    assert w + s + v == w + (s + v);
    BlanksTrimLeft(w, s + v);
    BlanksTrimRight(s, v);
  }

  lemma PaddedParses(w: string, name: string, v: string, raw: string)
    requires Blanks(w) && Blanks(v) && ValidName(name)
    ensures ParseTag(w + name + v, raw) == Some(Token(Subst, raw, name, "", false, false))
    ensures NoClose(w + name + v)
  {
    NamesAreSolid(name);
    NamesHoldNoPipe(name);
    PaddedHoldsNone(w, name, v);
    hide ValidName, Trim, NoClose, Blanks;
    BlanksTrim(w, name, v);
  }

  lemma PaddedHoldsNone(w: string, name: string, v: string)
    requires Blanks(w) && Blanks(v) && NoBrace(name) && '|' !in name
    ensures NoClose(w + name + v) && '|' !in w + name + v
  {
    var s := w + name + v;
    forall i | 0 <= i < |s|
      ensures s[i] != '}' && s[i] != '|'
    {
      assert s[i] == if i < |w| then w[i] else if i < |w| + |name| then name[i - |w|] else v[i - |w| - |name|];
    }
  }

  /** Blanks inside the braces do not count. */
  lemma BlanksInsideDoNotCount(e: Event, w: string, name: string, v: string, escape: string -> string)
    requires Blanks(w) && Blanks(v) && CanBeNamed(name)
    ensures RenderText("{{" + (w + name + v) + "}}", n => Resolve(e, n), escape) == escape(ValueOf(e, name))
  {
    var raw := "{{" + (w + name + v) + "}}";
    var tok := Token(Subst, raw, name, "", false, false);
    hide Blanks, NoClose, IsOffered, IsReserved, ValidName, ParseTag, Scan, TagStarts, Resolve, ValueOf, ResolvesAll;
    PaddedParses(w, name, v, raw);
    TagStands(w + name + v, raw, "", tok);
    assert raw + "" == raw && raw == "{{" + (w + name + v) + "}}";
    EmptyScans();
    assert Scan(raw, "") == [tok];
    NamesResolveToTheirValue(e, name);
    NothingAloneStays([tok], 0);
    OneTokenRenders(tok, n => Resolve(e, n), escape);
  }

  lemma EmptyScans()
    ensures Scan("", "") == []
  {
  }

  lemma OneTokenRenders(tok: Token, lookup: string -> Option<string>, escape: string -> string)
    requires tok.kind == Subst && !tok.hasFall && lookup(tok.name).Some?
    ensures Render([tok], lookup, escape, "", "") == escape(lookup(tok.name).value)
  {
    assert [tok][1..] == [] && Render([], lookup, escape, "", "") == "";
  }

  // --- the vocabulary --------------------------------------------------------------------

  /** Lower case, or a second letter, that no reserved word of this length has. */
  predicate UnlikeReserved(n: string) {
    && n != ""
    && (|n| == 6 ==> n[..2] != "se" && n[..2] != "ap")
    && (|n| == 8 ==> n[0] != 'p' && n[0] != 'a')
    && (|n| == 5 ==> n[0] != 't')
    && (|n| == 9 ==> n[0] != 'c')
    && IsLower(n[0]) && (|n| > 1 ==> IsLower(n[1])) && !HasPrefix(n, PARAMS)
  }

  lemma UnlikeIsNotReserved(n: string)
    requires UnlikeReserved(n)
    ensures !IsReserved(n)
  {
    assert |ToLower(n)| == |n| && ToLower(n)[0] == n[0] && (|n| > 1 ==> ToLower(n)[1] == n[1]);
    forall r | r in RESERVED
      ensures ToLower(n) != r
    {
      if |n| == 6 {
        assert n[..2] == [n[0], n[1]];
      }
    }
  }

  lemma TheShortNames(n: string)
    requires n in {"severity", "category", "kind", "state", "summary", "source", "oid", "id", "seq", "ts", "value", "lb"}
    ensures UnlikeReserved(n)
  {
  }

  lemma TheLongNames(n: string)
    requires n in {"severityUpper", "severityNumber", "sessionName", "sessionId", "dedupKey", "corrId", "tsLocal",
                   "hostname", "appVersion", "sinkName"}
    ensures UnlikeReserved(n)
  {
  }

  predicate InVocabulary(name: string) {
    name in {"severity", "category", "kind", "state", "summary", "source", "oid", "id", "seq", "ts", "value", "lb"}
    || name in {"severityUpper", "severityNumber", "sessionName", "sessionId", "dedupKey", "corrId", "tsLocal",
                "hostname", "appVersion", "sinkName"}
  }

  lemma VocabularyIsListed(name: string)
    ensures name in VARIABLES <==> InVocabulary(name)
  {
  }

  /** The names a template may use, besides parameters: these and no others. */
  lemma TheVocabulary(name: string)
    ensures Usable(name) && !HasPrefix(name, PARAMS) <==> InVocabulary(name)
  {
    hide UnlikeReserved, IsReserved, HasPrefix;
    VocabularyIsListed(name);
    if InVocabulary(name) {
      if name in {"severity", "category", "kind", "state", "summary", "source", "oid", "id", "seq", "ts", "value", "lb"} {
        TheShortNames(name);
      } else {
        TheLongNames(name);
      }
      UnlikeIsNotReserved(name);
      UnlikeIsSound(name);
    }
  }

  lemma UnlikeIsSound(n: string)
    requires UnlikeReserved(n)
    ensures n != "" && !HasPrefix(n, PARAMS)
  {
  }

  lemma SixAreValid(name: string)
    requires name in {"severity", "category", "kind", "state", "summary", "source"}
    ensures ValidName(name)
  {
    hide UnlikeReserved, IsReserved;
    TheShortNames(name);
    UnlikeIsSound(name);
  }

  lemma SixMoreAreValid(name: string)
    requires name in {"oid", "id", "seq", "ts", "value", "lb"}
    ensures ValidName(name)
  {
    hide UnlikeReserved, IsReserved;
    TheShortNames(name);
    UnlikeIsSound(name);
  }

  lemma FiveAreValid(name: string)
    requires name in {"severityUpper", "severityNumber", "sessionName", "sessionId", "dedupKey"}
    ensures ValidName(name)
  {
    hide UnlikeReserved, IsReserved;
    TheLongNames(name);
    UnlikeIsSound(name);
  }

  lemma FiveMoreAreValid(name: string)
    requires name in {"corrId", "tsLocal", "hostname", "appVersion", "sinkName"}
    ensures ValidName(name)
  {
    hide UnlikeReserved, IsReserved;
    TheLongNames(name);
    UnlikeIsSound(name);
  }

  lemma TheNamesAreValid(name: string)
    requires InVocabulary(name)
    ensures ValidName(name)
  {
    hide ValidName;
    if name in {"severity", "category", "kind", "state", "summary", "source"} {
      SixAreValid(name);
    } else if name in {"oid", "id", "seq", "ts", "value", "lb"} {
      SixMoreAreValid(name);
    } else if name in {"severityUpper", "severityNumber", "sessionName", "sessionId", "dedupKey"} {
      FiveAreValid(name);
    } else {
      FiveMoreAreValid(name);
    }
  }

  /** A letter of either case, a digit or an underscore. */
  predicate IsWordChar(c: char) { 'a' <= c <= 'z' || 'A' <= c <= 'Z' || '0' <= c <= '9' || c == '_' }

  predicate IsParameter(key: string) {
    1 <= |key| <= 64 && forall i | 0 <= i < |key| :: IsWordChar(key[i])
  }

  lemma ParametersAreValid(key: string)
    ensures ValidName("params." + key) <==> IsParameter(key)
    ensures HasPrefix("params." + key, PARAMS) && CutParams("params." + key) == key
  {
    assert ("params." + key)[7..] == key;
  }

  /** What may be named: the vocabulary, and a parameter of one to sixty-four letters, digits and
      underscores that is not a credential's. */
  lemma NameableExactly(name: string, key: string)
    ensures !HasPrefix(name, PARAMS) ==> (CanBeNamed(name) <==> InVocabulary(name))
    ensures CanBeNamed("params." + key) <==> IsParameter(key) && !IsCredential(key)
  {
    hide InVocabulary, ValidName, HasPrefix, IsParameter;
    TheVocabulary(name);
    if InVocabulary(name) {
      TheNamesAreValid(name);
    }
    ParametersAreValid(key);
    ParameterIsUsable(key);
  }

  lemma ParameterIsUsable(key: string)
    ensures Usable("params." + key) <==> !IsCredential(key)
  {
    ParametersAreValid(key);
    LowerKeepsDot(key);
    hide CutParams, ValidName, ToLower;
    assert ToLower(key) in RESERVED <==> IsCredential(key);
  }

  lemma LowerKeepsDot(key: string)
    ensures ToLower("params." + key) !in RESERVED
  {
    var s := ToLower("params." + key);
    assert |s| >= 7 && s[6] == '.';
    forall r | r in RESERVED
      ensures r != s
    {
      assert |r| > 6 ==> r[6] != '.';
    }
  }

  // --- credentials -----------------------------------------------------------------------

  /** A parameter whose name, in any case, is that of a credential. */
  predicate IsCredential(key: string) {
    ToLower(key) in {"secret", "password", "token", "community", "authpass", "privpass", "apikey"}
  }

  /** Two events that may differ in their credentials only. */
  ghost predicate AlikeButCredentials(e: Event, f: Event) {
    && (forall name :: e.field(name) == f.field(name))
    && (forall key | !IsCredential(key) ::
          (key in e.params <==> key in f.params) && (key in e.params ==> e.params[key] == f.params[key]))
  }

  lemma CredentialsDoNotResolve(e: Event, f: Event, name: string)
    requires AlikeButCredentials(e, f)
    ensures Resolve(e, name) == Resolve(f, name)
  {
    var key := CutParams(name);
    assert ToLower(key) in RESERVED <==> IsCredential(key);
    hide ToLower, CutParams, IsCredential;
  }

  lemma {:induction false} SameLookupsRenderAlike(toks: seq<Token>, a: string -> Option<string>, b: string -> Option<string>,
                                                  escape: string -> string, skipUntil: string, inBlock: string)
    requires forall name :: a(name) == b(name)
    ensures Render(toks, a, escape, skipUntil, inBlock) == Render(toks, b, escape, skipUntil, inBlock)
    decreases |toks|
  {
    if toks != [] {
      var t, rest := toks[0], toks[1..];
      assert a(t.name) == b(t.name);
      SameLookupsRenderAlike(rest, a, b, escape, if t.kind == BlockClose && t.name == skipUntil then "" else skipUntil, inBlock);
      SameLookupsRenderAlike(rest, a, b, escape, "", inBlock);
      SameLookupsRenderAlike(rest, a, b, escape, t.name, t.name);
      SameLookupsRenderAlike(rest, a, b, escape, "", t.name);
      SameLookupsRenderAlike(rest, a, b, escape, "", "");
    }
  }

  /** No template whatever, valid or not, prints anything that depends on a credential. */
  lemma CredentialsAreNeverPrinted(src: string, e: Event, f: Event, escape: string -> string)
    requires AlikeButCredentials(e, f)
    ensures RenderText(src, n => Resolve(e, n), escape) == RenderText(src, n => Resolve(f, n), escape)
  {
    hide Resolve, AlikeButCredentials, Tokens;
    forall name
      ensures Resolve(e, name) == Resolve(f, name)
    {
      CredentialsDoNotResolve(e, f, name);
    }
    SameLookupsRenderAlike(Tokens(src), n => Resolve(e, n), n => Resolve(f, n), escape, "", "");
  }
}
