/** What the findings of a walk become (pkg/preset/discover.go:80-200): which OIDs, in which
    places, and that they are the rows that were walked. */
module PresetInstances {
  import opened Basics
  import opened Text
  import opened Preset

  // --- the placeholder -------------------------------------------------------------------------

  predicate PlaceholderAt(oid: string, i: int) {
    0 <= i && i + 2 < |oid| && oid[i] == '{' && oid[i + 1] == '#' && oid[i + 2] == '}'
  }

  /** A template is an OID in which the placeholder stands somewhere. */
  lemma {:induction false} TemplatesHoldThePlaceholder(oid: string)
    ensures IsTemplate(oid) <==> exists i :: PlaceholderAt(oid, i)
  {
    if oid != "" {
      TemplatesHoldThePlaceholder(oid[1..]);
      assert AtPlaceholder(oid) <==> PlaceholderAt(oid, 0);
      if i :| PlaceholderAt(oid[1..], i) {
        assert PlaceholderAt(oid, i + 1);
      }
      if i :| PlaceholderAt(oid, i) && i > 0 {
        assert PlaceholderAt(oid[1..], i - 1);
      }
    }
  }

  lemma {:induction false} PlainStays(oid: string, suffix: string)
    requires !IsTemplate(oid)
    ensures Instantiate(oid, suffix) == oid
  {
    if oid != "" {
      PlainStays(oid[1..], suffix);
      assert [oid[0]] + oid[1..] == oid;
    }
  }

  /** The first placeholder becomes the suffix, whatever stands around it. */
  lemma {:induction false} FirstIsReplaced(a: string, b: string, suffix: string)
    requires !IsTemplate(a)
    ensures Instantiate(a + "{#}" + b, suffix) == a + suffix + Instantiate(b, suffix)
  {
    var s := a + "{#}" + b;
    if a == "" {
      assert s[3..] == b && AtPlaceholder(s);
    } else {
      assert s[0] == a[0] && s[1..] == a[1..] + "{#}" + b;
      assert |a| > 1 ==> s[1] == a[1];
      assert |a| > 2 ==> s[2] == a[2];
      assert !AtPlaceholder(s);
      FirstIsReplaced(a[1..], b, suffix);
      assert [a[0]] + (a[1..] + suffix + Instantiate(b, suffix)) == a + suffix + Instantiate(b, suffix);
    }
  }

  /** Pieces with something between each two. */
  function Between(pieces: seq<string>, sep: string): string {
    if pieces == [] then ""
    else if |pieces| == 1 then pieces[0]
    else pieces[0] + sep + Between(pieces[1..], sep)
  }

  /** Every placeholder becomes the suffix, and nothing else changes. */
  lemma {:induction false} EveryPlaceholderIsReplaced(pieces: seq<string>, suffix: string)
    requires forall p | p in pieces :: !IsTemplate(p)
    ensures Instantiate(Between(pieces, "{#}"), suffix) == Between(pieces, suffix)
  {
    if pieces != [] {
      assert pieces[0] in pieces;
      if |pieces| == 1 {
        PlainStays(pieces[0], suffix);
      } else {
        FirstIsReplaced(pieces[0], Between(pieces[1..], "{#}"), suffix);
        EveryPlaceholderIsReplaced(pieces[1..], suffix);
      }
    }
  }

  // --- no template is left, and no two instances are confused --------------------------------------

  /** What follows a column in a walked OID: digits and dots, and not nothing. */
  predicate IsSuffix(s: string) {
    s != "" && forall i | 0 <= i < |s| :: IsDigit(s[i]) || s[i] == '.'
  }

  lemma {:induction false} PlainInFront(a: string, b: string)
    requires (forall i | 0 <= i < |a| :: a[i] != '{') && !IsTemplate(b)
    ensures !IsTemplate(a + b)
  {
    if a == "" {
      assert a + b == b;
    } else {
      assert (a + b)[0] == a[0] && (a + b)[1..] == a[1..] + b;
      PlainInFront(a[1..], b);
    }
  }

  lemma StartsAlike(oid: string, suffix: string)
    requires IsSuffix(suffix)
    ensures var r := Instantiate(oid, suffix);
            r != "" && !IsDigit(r[0]) && r[0] != '.' ==> oid != "" && oid[0] == r[0] && !AtPlaceholder(oid)
  {
    if oid != "" && AtPlaceholder(oid) {
      assert Instantiate(oid, suffix)[0] == suffix[0];
    }
  }

  lemma {:induction false} NoPlaceholderIsLeft(oid: string, suffix: string)
    requires IsSuffix(suffix)
    ensures !IsTemplate(Instantiate(oid, suffix))
  {
    if oid == "" {
    } else if AtPlaceholder(oid) {
      NoPlaceholderIsLeft(oid[3..], suffix);
      PlainInFront(suffix, Instantiate(oid[3..], suffix));
    } else {
      var r, rest := Instantiate(oid, suffix), Instantiate(oid[1..], suffix);
      NoPlaceholderIsLeft(oid[1..], suffix);
      assert r[1..] == rest;
      if AtPlaceholder(r) {
        assert rest[0] == '#' && rest[1] == '}';
        StartsAlike(oid[1..], suffix);
        assert rest[1..] == Instantiate(oid[2..], suffix) && rest[1..][0] == '}';
        StartsAlike(oid[2..], suffix);
      }
    }
  }

  /** An empty suffix would leave one behind: it can close up a placeholder around it. */
  lemma AnEmptySuffixCanLeaveATemplate()
    ensures IsTemplate(Instantiate("{{#}#}", ""))
  {
    assert "{{#}#}"[1..] == "{#}#}" && "{#}#}"[3..] == "#}";
    assert Instantiate("{{#}#}", "") == "{#}";
  }

  function Placeholders(oid: string): nat {
    if oid == "" then 0
    else if AtPlaceholder(oid) then 1 + Placeholders(oid[3..])
    else Placeholders(oid[1..])
  }

  lemma {:induction false} LengthOfInstance(oid: string, suffix: string)
    ensures |Instantiate(oid, suffix)| == |oid| - 3 * Placeholders(oid) + Placeholders(oid) * |suffix|
    ensures IsTemplate(oid) ==> Placeholders(oid) > 0
  {
    if oid != "" {
      var rest := if AtPlaceholder(oid) then oid[3..] else oid[1..];
      LengthOfInstance(rest, suffix);
      OneMoreSuffix(Placeholders(rest), |suffix|);
    }
  }

  lemma OneMoreSuffix(n: nat, k: nat)
    ensures (1 + n) * k == n * k + k
  {
  }

  lemma {:induction false} SuffixStandsInInstance(oid: string, s: string, t: string)
    requires IsTemplate(oid) && |s| == |t| && Instantiate(oid, s) == Instantiate(oid, t)
    ensures s == t
  {
    var a, b := Instantiate(oid, s), Instantiate(oid, t);
    if AtPlaceholder(oid) {
      assert a[..|s|] == s && b[..|t|] == t;
    } else {
      assert a[1..] == Instantiate(oid[1..], s) && b[1..] == Instantiate(oid[1..], t);
      SuffixStandsInInstance(oid[1..], s, t);
    }
  }

  lemma SameProduct(n: nat, a: nat, b: nat)
    requires n > 0 && n * a == n * b
    ensures a == b
  {
  }

  /** Different instances of one template are different OIDs. */
  lemma InstancesAreDistinct(oid: string, s: string, t: string)
    requires IsTemplate(oid) && Instantiate(oid, s) == Instantiate(oid, t)
    ensures s == t
  {
    LengthOfInstance(oid, s);
    LengthOfInstance(oid, t);
    SameProduct(Placeholders(oid), |s|, |t|);
    SuffixStandsInInstance(oid, s, t);
  }

  // --- the places of a widget -----------------------------------------------------------------------

  lemma {:induction false} InstanceAt(templates: seq<string>, suffix: string, t: nat)
    requires t < |templates|
    ensures OneInstance(templates, suffix)[t] == Instantiate(templates[t], suffix)
  {
    if t > 0 {
      InstanceAt(templates[1..], suffix, t - 1);
    }
  }

  /** Instance by instance: place i * T + t holds template t at instance i. */
  lemma {:induction false} PlaceOfInstance(templates: seq<string>, found: seq<string>, i: nat, t: nat)
    requires i < |found| && t < |templates|
    ensures 0 <= i * |templates| + t < |AllInstances(templates, found)|
    ensures AllInstances(templates, found)[i * |templates| + t] == Instantiate(templates[t], found[i])
  {
    hide Instantiate, OneInstance;
    var n := |templates|;
    if i == 0 {
      InstanceAt(templates, found[0], t);
    } else {
      PlaceOfInstance(templates, found[1..], i - 1, t);
      OneRowFurther(i, n, t);
    }
  }

  lemma OneRowFurther(i: nat, n: nat, t: nat)
    requires i > 0
    ensures i * n + t == n + ((i - 1) * n + t)
  {
  }

  lemma ConsTemplates(oid: string, rest: seq<string>)
    ensures TemplatesOf([oid] + rest) == (if IsTemplate(oid) then [oid] else []) + TemplatesOf(rest)
    ensures FixedOf([oid] + rest) == (if IsTemplate(oid) then [] else [oid]) + FixedOf(rest)
  {
    hide IsTemplate;
    assert ([oid] + rest)[1..] == rest;
  }

  lemma {:induction false} TemplatesInOrder(oids: seq<string>, j: nat)
    requires j < |oids| && IsTemplate(oids[j])
    ensures |TemplatesOf(oids[..j])| < |TemplatesOf(oids)|
    ensures TemplatesOf(oids)[|TemplatesOf(oids[..j])|] == oids[j]
  {
    hide IsTemplate, TemplatesOf;
    var first, rest := oids[0], oids[1..];
    assert oids == [first] + rest;
    ConsTemplates(first, rest);
    if j > 0 {
      TemplatesInOrder(rest, j - 1);
      assert oids[..j] == [first] + rest[..j - 1];
      ConsTemplates(first, rest[..j - 1]);
    } else {
      assert oids[..0] == [];
      NoOids();
    }
  }

  lemma NoOids()
    ensures TemplatesOf([]) == [] && FixedOf([]) == []
  {
  }

  lemma {:induction false} FixedInOrder(oids: seq<string>, j: nat)
    requires j < |oids| && !IsTemplate(oids[j])
    ensures |FixedOf(oids[..j])| < |FixedOf(oids)|
    ensures FixedOf(oids)[|FixedOf(oids[..j])|] == oids[j]
  {
    hide IsTemplate, FixedOf, TemplatesOf;
    var first, rest := oids[0], oids[1..];
    assert oids == [first] + rest;
    ConsTemplates(first, rest);
    if j > 0 {
      FixedInOrder(rest, j - 1);
      assert oids[..j] == [first] + rest[..j - 1];
      ConsTemplates(first, rest[..j - 1]);
    } else {
      assert oids[..0] == [];
      NoOids();
    }
  }

  /** How many of these OIDs carry the placeholder. */
  function CountOf(oids: seq<string>): nat {
    if oids == [] then 0 else CountOf(oids[..|oids| - 1]) + if IsTemplate(oids[|oids| - 1]) then 1 else 0
  }

  lemma {:induction false} CountIsLength(oids: seq<string>)
    ensures |TemplatesOf(oids)| == CountOf(oids) && |FixedOf(oids)| == |oids| - CountOf(oids)
  {
    if oids != [] {
      var front, last := oids[..|oids| - 1], oids[|oids| - 1];
      CountIsLength(front);
      assert oids == front + [last];
      OneMoreTemplate(front, last);
    }
  }

  lemma {:induction false} OneMoreTemplate(oids: seq<string>, oid: string)
    ensures |TemplatesOf(oids + [oid])| == |TemplatesOf(oids)| + if IsTemplate(oid) then 1 else 0
  {
    if oids != [] {
      assert (oids + [oid])[1..] == oids[1..] + [oid];
      OneMoreTemplate(oids[1..], oid);
    }
  }

  lemma ExpandedIs(w: Widget, found: seq<string>)
    requires w.discover.Some?
    ensures var n := Min(|found|, InstanceLimit(w));
            var instances := AllInstances(TemplatesOf(w.oids), Kept(w, found));
            && Kept(w, found) == found[..n] && |instances| == n * CountOf(w.oids)
            && ExpandWidget(w, found).oids == instances + FixedOf(w.oids)
            && ExpandWidget(w, found).discover.None?
            && |TemplatesOf(w.oids)| == CountOf(w.oids) && |FixedOf(w.oids)| == |w.oids| - CountOf(w.oids)
  {
    hide InstanceLimit, IsTemplate, CountOf;
    CountIsLength(w.oids);
    TimesCommutes(|TemplatesOf(w.oids)|, Min(|found|, InstanceLimit(w)));
    hide TemplatesOf, FixedOf, AllInstances;
    assert found[..|found|] == found;
  }

  /** A template of a discovering widget goes, for each instance taken, behind all templates of
      the instances before it. */
  lemma PlacesOfTemplates(w: Widget, found: seq<string>, j: nat, i: nat)
    requires w.discover.Some? && j < |w.oids| && IsTemplate(w.oids[j]) && i < Min(|found|, InstanceLimit(w))
    ensures var place := i * CountOf(w.oids) + CountOf(w.oids[..j]);
            0 <= place < |ExpandWidget(w, found).oids|
            && ExpandWidget(w, found).oids[place] == Instantiate(w.oids[j], found[i])
  {
    hide InstanceLimit, TemplatesOf, FixedOf, AllInstances, Instantiate, IsTemplate, CountOf, ExpandWidget, Kept;
    ExpandedIs(w, found);
    CountIsLength(w.oids[..j]);
    TemplatesInOrder(w.oids, j);
    PlaceOfInstance(TemplatesOf(w.oids), Kept(w, found), i, CountOf(w.oids[..j]));
  }

  /** Its fixed OIDs go behind all instances, in order, and there is nothing else. */
  lemma PlacesOfFixed(w: Widget, found: seq<string>, j: nat)
    requires w.discover.Some? && j < |w.oids| && !IsTemplate(w.oids[j])
    ensures var taken := Min(|found|, InstanceLimit(w)) * CountOf(w.oids);
            var place := taken + (j - CountOf(w.oids[..j]));
            0 <= place < |ExpandWidget(w, found).oids| == taken + (|w.oids| - CountOf(w.oids))
            && ExpandWidget(w, found).oids[place] == w.oids[j]
  {
    hide InstanceLimit, TemplatesOf, FixedOf, AllInstances, Instantiate, IsTemplate, CountOf, ExpandWidget, Kept;
    ExpandedIs(w, found);
    CountIsLength(w.oids[..j]);
    FixedInOrder(w.oids, j);
  }

  lemma TimesCommutes(a: nat, b: nat)
    ensures a * b == b * a
  {
  }

  // --- the whole preset ---------------------------------------------------------------------------------

  lemma {:induction false} InstancesArePlain(templates: seq<string>, found: seq<string>)
    requires forall s | s in found :: IsSuffix(s)
    ensures forall oid | oid in AllInstances(templates, found) :: !IsTemplate(oid)
  {
    if found != [] {
      assert found[0] in found;
      OneInstanceIsPlain(templates, found[0]);
      InstancesArePlain(templates, found[1..]);
    }
  }

  lemma {:induction false} OneInstanceIsPlain(templates: seq<string>, suffix: string)
    requires IsSuffix(suffix)
    ensures forall oid | oid in OneInstance(templates, suffix) :: !IsTemplate(oid)
  {
    if templates != [] {
      NoPlaceholderIsLeft(templates[0], suffix);
      OneInstanceIsPlain(templates[1..], suffix);
    }
  }

  /** Once every widget with a placeholder discovers, as validation asks, expansion leaves
      addresses only: nothing to discover and no placeholder. */
  lemma NothingIsLeftToDiscover(ws: seq<Widget>, found: nat -> seq<string>, i: nat)
    requires i < |ws| && (ws[i].discover.None? ==> forall oid | oid in ws[i].oids :: !IsTemplate(oid))
    requires forall s | s in found(i) :: IsSuffix(s)
    ensures Expand(ws, found)[i].discover.None?
    ensures forall oid | oid in Expand(ws, found)[i].oids :: !IsTemplate(oid)
  {
    var w := ws[i];
    assert Expand(ws, found)[i] == ExpandWidget(w, found(i));
    if w.discover.Some? {
      var kept := Kept(w, found(i));
      assert forall s | s in kept :: s in found(i);
      InstancesArePlain(TemplatesOf(w.oids), kept);
    }
  }

  // --- from a walk to its instances ------------------------------------------------------------------

  /** An OID as it is compared: no blanks around it, no dot before it. */
  function Bare(oid: string): string { TrimPrefix(TrimSpace(oid), '.') }

  /** What identifies a row of a column is what follows the column's own OID. */
  function RowOf(column: string, raw: string): Option<string> {
    var oid := Bare(raw);
    if column + "." <= oid && |oid| > |column| + 1 then Some(oid[|column| + 1..]) else None
  }

  function InstancesOf(column: string, walked: seq<string>): seq<string> {
    if walked == [] then []
    else
      InstancesOf(column, walked[..|walked| - 1])
      + match RowOf(column, walked[|walked| - 1]) case Some(row) => [row] case None => []
  }

  /** InstancesFrom: the rows a walk answered, in its order; anything outside the column is no row. */
  method InstancesFrom(column: string, walked: seq<string>) returns (found: seq<string>)
    ensures found == if Bare(column) == "" then [] else InstancesOf(Bare(column), walked)
  {
    var prefix := Bare(column);
    if prefix == "" {
      return [];
    }
    hide Bare;
    found := [];
    for k := 0 to |walked|
      invariant found == InstancesOf(prefix, walked[..k])
    {
      assert walked[..k + 1][..k] == walked[..k];
      var oid := Bare(walked[k]);
      if prefix + "." <= oid {
        var suffix := oid[|prefix| + 1..];
        if suffix != "" {
          found := found + [suffix];
        }
      }
    }
    assert walked[..|walked|] == walked;
  }

  /** The walked OIDs below a column, in order. */
  function RowsUnder(column: string, walked: seq<string>): seq<string> {
    if walked == [] then []
    else
      var oid := Bare(walked[|walked| - 1]);
      RowsUnder(column, walked[..|walked| - 1])
      + if column + "." <= oid && oid != column + "." then [oid] else []
  }

  lemma {:induction false} DotStaysPlain(column: string)
    requires !IsTemplate(column)
    ensures !IsTemplate(column + ".")
  {
    if column != "" {
      assert (column + ".")[1..] == column[1..] + ".";
      DotStaysPlain(column[1..]);
      assert (column + ".")[0] == column[0] && (|column| > 1 ==> (column + ".")[1] == column[1]);
      assert |column| > 2 ==> (column + ".")[2] == column[2];
    }
  }

  lemma RowReadsBack(column: string, suffix: string)
    requires !IsTemplate(column)
    ensures Instantiate(column + ".{#}", suffix) == column + "." + suffix
  {
    DotStaysPlain(column);
    FirstIsReplaced(column + ".", "", suffix);
    assert column + "." + "{#}" + "" == column + ".{#}";
    assert Instantiate("", suffix) == "";
    assert column + "." + suffix + "" == column + "." + suffix;
  }

  lemma {:induction false} OneColumnAppend(template: string, found: seq<string>, suffix: string)
    ensures AllInstances([template], found + [suffix]) == AllInstances([template], found) + [Instantiate(template, suffix)]
  {
    assert OneInstance([template], suffix) == [Instantiate(template, suffix)] by {
      assert [template][1..] == [];
    }
    if found == [] {
      assert [] + [suffix] == [suffix] && [suffix][1..] == [];
    } else {
      assert (found + [suffix])[1..] == found[1..] + [suffix];
      OneColumnAppend(template, found[1..], suffix);
    }
  }

  /** The template of a column, at the instances that walking it gave, is exactly the rows that
      were walked: what is polled is what the device answered for, in its order. */
  lemma {:induction false} WalkedRowsArePolled(column: string, walked: seq<string>)
    requires !IsTemplate(column)
    ensures AllInstances([column + ".{#}"], InstancesOf(column, walked)) == RowsUnder(column, walked)
  {
    if walked != [] {
      var front := walked[..|walked| - 1];
      WalkedRowsArePolled(column, front);
      OneMoreRow(column, InstancesOf(column, front), walked[|walked| - 1]);
    }
  }

  lemma OneMoreRow(column: string, found: seq<string>, raw: string)
    requires !IsTemplate(column)
    ensures var row, oid := RowOf(column, raw), Bare(raw);
            AllInstances([column + ".{#}"], found + match row case Some(suffix) => [suffix] case None => [])
            == AllInstances([column + ".{#}"], found)
               + if column + "." <= oid && oid != column + "." then [oid] else []
  {
    hide IsTemplate, Instantiate, Bare, AllInstances;
    var oid := Bare(raw);
    assert found + [] == found;
    assert column + "." <= oid ==> (oid == column + "." <==> |oid| == |column| + 1);
    if column + "." <= oid && oid != column + "." {
      var suffix := oid[|column| + 1..];
      OneColumnAppend(column + ".{#}", found, suffix);
      RowReadsBack(column, suffix);
      assert oid == column + "." + suffix;
    }
  }
}
