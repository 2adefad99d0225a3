/** Matching an event's OID against a rule's prefix (pkg/notify/route.go:217-224): a text
    comparison that is meant as one of sub-identifiers. */
module RoutePrefix {
  import opened Text

  function Undotted(s: string): string { TrimLeft(s, (c: char) => c == '.') }

  predicate HasPrefix(s: string, prefix: string) { |prefix| <= |s| && s[..|prefix|] == prefix }

  predicate OidHasPrefix(oid: string, prefix: string) {
    var o, p := Undotted(oid), Undotted(prefix);
    if o == "" || p == "" then p == "" else o == p || HasPrefix(o, p + ".")
  }

  lemma {:induction false} SplitAppend(s: string, t: string, sep: char)
    ensures Split(s + [sep] + t, sep) == Split(s, sep) + Split(t, sep)
  {
    var whole := s + [sep] + t;
    if s == "" {
      assert whole[1..] == t;
    } else {
      assert whole[1..] == s[1..] + [sep] + t && whole[0] == s[0];
      SplitAppend(s[1..], t, sep);
      var a, b := Split(s[1..], sep), Split(t, sep);
      assert [""] + (a + b) == ([""] + a) + b;
      assert [[s[0]] + (a + b)[0]] + (a + b)[1..] == ([[s[0]] + a[0]] + a[1..]) + b;
    }
  }

  lemma {:induction false} JoinAppend(a: seq<string>, b: seq<string>, sep: char)
    requires a != [] && b != []
    ensures Join(a + b, sep) == Join(a, sep) + [sep] + Join(b, sep)
  {
    if |a| == 1 {
      assert (a + b)[1..] == b;
    } else {
      assert (a + b)[1..] == a[1..] + b;
      JoinAppend(a[1..], b, sep);
    }
  }

  lemma {:induction false} UndottedStartsElsewhere(s: string)
    ensures Undotted(s) != "" ==> Undotted(s)[0] != '.'
  {
    if s != "" && s[0] == '.' {
      UndottedStartsElsewhere(s[1..]);
    }
  }

  /** The text test accepts exactly the OIDs whose sub-identifiers begin with the rule's. */
  lemma PrefixIsBySubIdentifier(oid: string, prefix: string)
    ensures OidHasPrefix(oid, prefix) <==>
            Undotted(prefix) == "" || Split(Undotted(prefix), '.') <= Split(Undotted(oid), '.')
  {
    var o, p := Undotted(oid), Undotted(prefix);
    UndottedStartsElsewhere(prefix);
    if p == "" {
      return;
    }
    if o == "" {
      JoinUndoesSplit(p, '.');
      FirstPiece(p, '.');
      assert Split(o, '.') == [""];
      return;
    }
    hide Undotted;
    if o != p && HasPrefix(o, p + ".") {
      var t := o[|p| + 1..];
      assert o == p + "." + t;
      SplitAppend(p, t, '.');
      assert Split(o, '.')[..|Split(p, '.')|] == Split(p, '.');
    }
    if Split(p, '.') <= Split(o, '.') {
      var rest := Split(o, '.')[|Split(p, '.')|..];
      assert Split(o, '.') == Split(p, '.') + rest;
      JoinUndoesSplit(p, '.');
      JoinUndoesSplit(o, '.');
      hide Split, Join;
      if rest == [] {
        assert Split(p, '.') + [] == Split(p, '.');
      } else {
        JoinAppend(Split(p, '.'), rest, '.');
        assert o[..|p + "."|] == p + ".";
      }
    }
  }

  lemma FirstPiece(s: string, sep: char)
    requires s != "" && s[0] != sep
    ensures Split(s, sep)[0] != ""
  {
  }
}
