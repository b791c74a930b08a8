/** The form codec inverts: what a browser submits for a bound value parses back to it,
    exactly for the values a form can express. */
module FormsRoundTrip {
  import opened Common
  import opened Forms
  import opened FormsLocality
  import Ordering

  // ------------------------------------------------------- well-formed forms, canonical values

  /** The input always submits something, whatever its value. */
  predicate AlwaysSubmits(spec: Spec)
    decreases spec, 1
  {
    match spec
    case ObjectSpec(_, _, children) => SomeSubmits(children)
    case RowsSpec(_, _, _) => false
    case _ => true
  }

  predicate SomeSubmits(children: seq<Spec>)
    decreases children, 0
  {
    children != [] && (AlwaysSubmits(children[0]) || SomeSubmits(children[1..]))
  }

  /** Sibling labels are distinct, dot-free and not "null". */
  predicate Labelled(spec: Spec)
    decreases spec, 1
  {
    match spec
    case ObjectSpec(_, _, children) => LabelledAll(children)
    case RowsSpec(_, _, children) => LabelledAll(children)
    case _ => true
  }

  predicate LabelledAll(children: seq<Spec>)
    decreases children, 0
  {
    children == [] ||
    (&& Labelled(children[0]) && DotFree(children[0].tag) && children[0].tag != "null"
     && (forall c | c in children[1..] :: c.tag != children[0].tag)
     && LabelledAll(children[1..]))
  }

  /** Labels are sound, and a row has an input to show. */
  predicate WellFormed(spec: Spec)
    decreases spec, 1
  {
    match spec
    case ObjectSpec(_, _, children) => WellFormedAll(children)
    case RowsSpec(_, _, children) => WellFormedAll(children) && SomeSubmits(children)
    case _ => true
  }

  predicate WellFormedAll(children: seq<Spec>)
    decreases children, 0
  {
    children == [] ||
    (&& WellFormed(children[0]) && DotFree(children[0].tag) && children[0].tag != "null"
     && (forall c | c in children[1..] :: c.tag != children[0].tag)
     && WellFormedAll(children[1..]))
  }

  lemma {:induction false} WellFormedIsLabelled(spec: Spec)
    requires WellFormed(spec)
    ensures Labelled(spec)
    decreases spec, 1
  {
    match spec
    case ObjectSpec(_, _, children) => AllLabelled(children);
    case RowsSpec(_, _, children) => AllLabelled(children);
    case _ =>
  }

  lemma {:induction false} AllLabelled(children: seq<Spec>)
    requires WellFormedAll(children)
    ensures LabelledAll(children)
    decreases children, 0
  {
    if children != [] {
      WellFormedIsLabelled(children[0]);
      AllLabelled(children[1..]);
    }
  }

  predicate SingleLine(s: string) {
    forall i | 0 <= i < |s| :: !IsBreak(s[i])
  }

  predicate CanonicalLine(v: Json) {
    v.JString? && v.text != "" && Trimmed(v.text) && SingleLine(v.text)
  }

  function Tags(children: seq<Spec>): set<string> {
    set c | c in children :: c.tag
  }

  /** The values a form can express. */
  predicate Canonical(spec: Spec, v: Json)
    decreases spec, 2, 0
  {
    match spec
    case ScalarSpec(_, nullable, _) =>
      if v == JNull then nullable else v.JString? && Trimmed(v.text) && (nullable ==> v.text != "")
    case BoolSpec(_, _) => v == JNull || v.JBool?
    case LinesSpec(_, _) => v.JList? && forall i | 0 <= i < |v.items| :: CanonicalLine(v.items[i])
    case ObjectSpec(_, nullable, children) =>
      if v == JNull then nullable else v.JObject? && CanonicalMembers(children, v.members)
    case RowsSpec(_, _, children) => v.JList? && CanonicalRows(children, v.items)
  }

  predicate CanonicalMembers(children: seq<Spec>, members: map<string, Json>)
    decreases children, 1, 0
  {
    members.Keys == Tags(children) && CanonicalAll(children, members)
  }

  predicate CanonicalAll(children: seq<Spec>, members: map<string, Json>)
    decreases children, 0, 0
  {
    children == [] ||
    (&& children[0].tag in members && Canonical(children[0], members[children[0].tag])
     && CanonicalAll(children[1..], members))
  }

  predicate CanonicalRows(children: seq<Spec>, items: seq<Json>)
    decreases children, 2, |items|
  {
    items == [] ||
    (&& items[0].JObject? && CanonicalMembers(children, items[0].members) && !Blank(children, items[0].members)
     && CanonicalRows(children, items[1..]))
  }

  // ------------------------------------------------------------------ merged submissions

  /** `key` is the input `name` or one below it. */
  predicate InputOf(name: string, key: string) {
    name <= key && Under(key[|name|..])
  }

  lemma MergeKeepsLeft(a: Data, b: Data, name: string)
    requires forall key | key in b :: !InputOf(name, key)
    ensures SameInputs(a + b, name, a, name)
  {
    forall s | Under(s)
      ensures Lookup(a + b, name, s) == Lookup(a, name, s)
    {
      assert (name + s)[|name|..] == s;
      assert InputOf(name, name + s);
    }
  }

  lemma MergeKeepsRight(a: Data, b: Data, name: string)
    requires forall key | key in a :: !InputOf(name, key)
    ensures SameInputs(a + b, name, b, name)
  {
    forall s | Under(s)
      ensures Lookup(a + b, name, s) == Lookup(b, name, s)
    {
      assert (name + s)[|name|..] == s;
      assert InputOf(name, name + s);
    }
  }

  lemma SameInputsTransitive(a: Data, b: Data, c: Data, name: string)
    requires SameInputs(a, name, b, name) && SameInputs(b, name, c, name)
    ensures SameInputs(a, name, c, name)
  {
    forall s | Under(s) ensures Lookup(a, name, s) == Lookup(c, name, s) {
      assert Lookup(a, name, s) == Lookup(b, name, s);
    }
  }

  lemma InputBelow(name: string, tag: string, key: string)
    requires InputOf(Sub(name, tag), key)
    ensures InputOf(name, key)
  {
    assert key[|name|] == Sub(name, tag)[|name|] == '.';
  }

  lemma OtherSibling(name: string, a: string, b: string, key: string)
    requires DotFree(a) && DotFree(b) && a != b && InputOf(Sub(name, a), key)
    ensures !InputOf(Sub(name, b), key)
  {
    if InputOf(Sub(name, b), key) {
      var s, t := key[|Sub(name, a)|..], key[|Sub(name, b)|..];
      assert key == Sub(name, a) + s && key == Sub(name, b) + t;
      SiblingsDisjoint(name, a, b, s, t);
    }
  }

  // --------------------------------------------------------------- where inputs are submitted

  /** A bound form submits only inputs under its own name. */
  lemma {:induction false} EncodeStaysBelow(spec: Spec, name: string, v: Json, show: Json -> string, key: string)
    requires key in Encode(Bind(spec, name, v, show), show)
    ensures InputOf(name, key)
    decreases spec, 2, 0
  {
    assert Sub(name, "null")[|name|] == '.';
    match spec
    case ObjectSpec(_, _, children) =>
      if key in EncodeAll(BindMembers(children, name, v, show), show) {
        var c := MemberOf(children, name, v, show, key);
        InputBelow(name, c.tag, key);
      }
    case RowsSpec(_, _, children) =>
      var i := RowOf(children, name, if v.JList? then v.items else [], 0, show, key);
      InputBelow(name, Decimal(i), key);
    case _ =>
  }

  /** An input submitted by the members of an object belongs to one of them. */
  lemma {:induction false} MemberOf(children: seq<Spec>, name: string, v: Json, show: Json -> string, key: string)
    returns (c: Spec)
    requires key in EncodeAll(BindMembers(children, name, v, show), show)
    ensures c in children && InputOf(Sub(name, c.tag), key)
    decreases children, 0, 0
  {
    var first := Bind(children[0], Sub(name, children[0].tag), Member(v, children[0].tag), show);
    var rest := BindMembers(children[1..], name, v, show);
    assert BindMembers(children, name, v, show) == [first] + rest;
    assert ([first] + rest)[1..] == rest;
    if key in Encode(first, show) {
      c := children[0];
      EncodeStaysBelow(c, Sub(name, c.tag), Member(v, c.tag), show, key);
    } else {
      c := MemberOf(children[1..], name, v, show, key);
    }
  }

  /** Every input of a row is the row's name, a dot, and something more. */
  lemma RowInputShape(children: seq<Spec>, here: string, item: Json, show: Json -> string, key: string)
    returns (rest: string)
    requires key in EncodeAll(BindMembers(children, here, item, show), show)
    ensures key == here + "." + rest && InputOf(here, key)
    decreases children, 1, 0
  {
    var c := MemberOf(children, here, item, show, key);
    InputBelow(here, c.tag, key);
    var s := key[|Sub(here, c.tag)|..];
    rest := c.tag + s;
    assert key == here + "." + (c.tag + s);
  }

  /** An input submitted by a list of rows belongs to one of them. */
  lemma {:induction false} RowOf(children: seq<Spec>, name: string, items: seq<Json>, first: nat,
                                 show: Json -> string, key: string)
    returns (i: nat)
    requires key in EncodeAll(BindRows(children, name, items, first, show), show)
    ensures first <= i < first + |items| && InputOf(Sub(name, Decimal(i)), key)
    ensures exists rest :: key == Sub(name, Decimal(i)) + "." + rest
    decreases children, 2, |items|
  {
    var rows := BindRows(children, name, items, first, show);
    var here := Sub(name, Decimal(first));
    assert rows[1..] == BindRows(children, name, items[1..], first + 1, show);
    if key in EncodeAll(BindMembers(children, here, items[0], show), show) {
      i := first;
      var rest := RowInputShape(children, here, items[0], show, key);
    } else {
      i := RowOf(children, name, items[1..], first + 1, show, key);
    }
  }

  // ------------------------------------------------------------ siblings do not interfere

  lemma {:induction false} TagIsPlain(children: seq<Spec>, c: Spec)
    requires LabelledAll(children) && c in children
    ensures DotFree(c.tag) && c.tag != "null" && Labelled(c)
  {
    if c != children[0] {
      TagIsPlain(children[1..], c);
    }
  }

  /** What a whole object submits under a member's name is what the member submits. */
  lemma {:induction false} MembersSeparate(children: seq<Spec>, name: string, v: Json, show: Json -> string, k: nat)
    requires LabelledAll(children) && k < |children|
    ensures var here := Sub(name, children[k].tag);
      SameInputs(EncodeAll(BindMembers(children, name, v, show), show), here,
                 Encode(Bind(children[k], here, Member(v, children[k].tag), show), show), here)
    decreases |children|
  {
    hide SameInputs, InputOf;
    var c, here := children[0], Sub(name, children[k].tag);
    var first := Encode(Bind(c, Sub(name, c.tag), Member(v, c.tag), show), show);
    var rest := EncodeAll(BindMembers(children[1..], name, v, show), show);
    assert BindMembers(children, name, v, show)[1..] == BindMembers(children[1..], name, v, show);
    assert EncodeAll(BindMembers(children, name, v, show), show) == first + rest;
    if k == 0 {
      forall key | key in rest ensures !InputOf(here, key) {
        var other := MemberOf(children[1..], name, v, show, key);
        TagIsPlain(children[1..], other);
        OtherSibling(name, other.tag, c.tag, key);
      }
      MergeKeepsLeft(first, rest, here);
    } else {
      TagIsPlain(children[1..], children[k]);
      forall key | key in first ensures !InputOf(here, key) {
        EncodeStaysBelow(c, Sub(name, c.tag), Member(v, c.tag), show, key);
        OtherSibling(name, c.tag, children[k].tag, key);
      }
      MergeKeepsRight(first, rest, here);
      MembersSeparate(children[1..], name, v, show, k - 1);
      SameInputsTransitive(first + rest, rest,
                           Encode(Bind(children[k], here, Member(v, children[k].tag), show), show), here);
    }
  }

  lemma DecimalDistinct(i: nat, j: nat)
    requires i != j
    ensures Decimal(i) != Decimal(j) && DotFree(Decimal(i))
  {
    DecimalValue(i);
    DecimalValue(j);
  }

  function RowObject(children: seq<Spec>, name: string, item: Json, show: Json -> string): Data {
    EncodeAll(BindMembers(children, name, item, show), show)
  }

  lemma FirstRowFirst(children: seq<Spec>, name: string, items: seq<Json>, first: nat, show: Json -> string)
    requires items != []
    ensures EncodeAll(BindRows(children, name, items, first, show), show)
            == RowObject(children, Sub(name, Decimal(first)), items[0], show)
               + EncodeAll(BindRows(children, name, items[1..], first + 1, show), show)
  {
    var rows := BindRows(children, name, items, first, show);
    assert rows[1..] == BindRows(children, name, items[1..], first + 1, show);
  }

  /** What a whole list submits under a row's name is what the row submits. */
  lemma {:induction false} RowsSeparate(children: seq<Spec>, name: string, items: seq<Json>, first: nat,
                                        show: Json -> string, k: nat)
    requires k < |items|
    ensures var here := Sub(name, Decimal(first + k));
      SameInputs(EncodeAll(BindRows(children, name, items, first, show), show), here,
                 RowObject(children, here, items[k], show), here)
    decreases |items|
  {
    hide SameInputs, InputOf, EncodeAll, BindRows;
    var here := Sub(name, Decimal(first + k));
    var head := RowObject(children, Sub(name, Decimal(first)), items[0], show);
    var rest := EncodeAll(BindRows(children, name, items[1..], first + 1, show), show);
    FirstRowFirst(children, name, items, first, show);
    if k == 0 {
      forall key | key in rest ensures !InputOf(here, key) {
        var i := RowOf(children, name, items[1..], first + 1, show, key);
        DecimalDistinct(i, first);
        DecimalDistinct(first, i);
        OtherSibling(name, Decimal(i), Decimal(first), key);
      }
      MergeKeepsLeft(head, rest, here);
    } else {
      forall key | key in head ensures !InputOf(here, key) {
        var c := MemberOf(children, Sub(name, Decimal(first)), items[0], show, key);
        InputBelow(Sub(name, Decimal(first)), c.tag, key);
        DecimalDistinct(first, first + k);
        DecimalDistinct(first + k, first);
        OtherSibling(name, Decimal(first), Decimal(first + k), key);
      }
      MergeKeepsRight(head, rest, here);
      RowsSeparate(children, name, items[1..], first + 1, show, k - 1);
      SameInputsTransitive(head + rest, rest, RowObject(children, here, items[k], show), here);
    }
  }

  /** The null toggle of an object is its own: no member submits it, and it is no member's input. */
  lemma ToggleSeparate(children: seq<Spec>, name: string, v: Json, show: Json -> string, on: bool)
    requires LabelledAll(children)
    ensures var members := RowObject(children, name, v, show);
      && Toggled(NullToggle(name, on) + members, name) == on
      && forall c | c in children ::
           SameInputs(NullToggle(name, on) + members, Sub(name, c.tag), members, Sub(name, c.tag))
  {
    hide SameInputs, InputOf;
    var members := RowObject(children, name, v, show);
    var toggle := Sub(name, "null");
    assert InputOf(toggle, toggle) by { InputOfItself(toggle); }
    if toggle in members {
      var c := MemberOf(children, name, v, show, toggle);
      TagIsPlain(children, c);
      OtherSibling(name, "null", c.tag, toggle);
    }
    forall c | c in children
      ensures SameInputs(NullToggle(name, on) + members, Sub(name, c.tag), members, Sub(name, c.tag))
    {
      TagIsPlain(children, c);
      OtherSibling(name, "null", c.tag, toggle);
      MergeKeepsRight(NullToggle(name, on), members, Sub(name, c.tag));
    }
  }

  lemma InputOfItself(name: string)
    ensures InputOf(name, name)
  {
  }

  // ------------------------------------------------------------------------- row indices

  function Range(first: nat, n: nat): (r: seq<nat>)
    ensures |r| == n && forall i | 0 <= i < n :: r[i] == first + i
    decreases n
  {
    if n == 0 then [] else [first] + Range(first + 1, n - 1)
  }

  lemma {:induction false} SomethingSubmitted(spec: Spec, name: string, v: Json, show: Json -> string)
    requires AlwaysSubmits(spec)
    ensures Encode(Bind(spec, name, v, show), show) != map[]
    decreases spec, 1
  {
    match spec
    case ObjectSpec(_, _, children) => SomeMemberSubmitted(children, name, v, show);
    case RowsSpec(_, _, _) =>
    case ScalarSpec(_, _, _) => assert name in Encode(Bind(spec, name, v, show), show);
    case BoolSpec(_, _) => assert name in Encode(Bind(spec, name, v, show), show);
    case LinesSpec(_, _) => assert name in Encode(Bind(spec, name, v, show), show);
  }

  lemma {:induction false} SomeMemberSubmitted(children: seq<Spec>, name: string, v: Json, show: Json -> string)
    requires SomeSubmits(children)
    ensures RowObject(children, name, v, show) != map[]
    decreases children, 0
  {
    var here := Sub(name, children[0].tag);
    assert BindMembers(children, name, v, show)[1..] == BindMembers(children[1..], name, v, show);
    var first := Encode(Bind(children[0], here, Member(v, children[0].tag), show), show);
    var rest := RowObject(children[1..], name, v, show);
    assert RowObject(children, name, v, show) == first + rest;
    if AlwaysSubmits(children[0]) {
      SomethingSubmitted(children[0], here, Member(v, children[0].tag), show);
      var key :| key in first;
      assert key in first + rest;
    } else {
      SomeMemberSubmitted(children[1..], name, v, show);
      var key :| key in rest;
      assert key in first + rest;
    }
  }

  /** A list of n rows submits exactly the indices 0 to n-1. */
  lemma SubmittedIndices(children: seq<Spec>, name: string, items: seq<Json>, show: Json -> string)
    requires SomeSubmits(children)
    ensures SortedIndices(name, EncodeAll(BindRows(children, name, items, 0, show), show)) == Range(0, |items|)
  {
    hide SameInputs, SortedIndices, InputOf;
    var data := EncodeAll(BindRows(children, name, items, 0, show), show);
    var range := Range(0, |items|);
    forall i | i in Indices(name, data) ensures i in range {
      var key :| key in data && IndexOf(name, key) == Some(i);
      var j := RowOf(children, name, items, 0, show, key);
      var rest :| key == Sub(name, Decimal(j)) + "." + rest;
      IndexOfRow(name, j, rest);
      assert range[j] == i;
    }
    forall i | i in range ensures i in Indices(name, data) {
      RowIsSubmitted(children, name, items, i, show);
    }
    assert Ordering.Elements(range) == Indices(name, data);
    NumericTotal(Indices(name, data));
    Ordering.AscendingUnique(Numeric(), SortedIndices(name, data), range);
  }

  lemma RowHasInput(children: seq<Spec>, here: string, item: Json, show: Json -> string) returns (rest: string)
    requires SomeSubmits(children)
    ensures here + "." + rest in RowObject(children, here, item, show)
  {
    hide Encode, BindMembers, SomeSubmits, InputOf;
    SomeMemberSubmitted(children, here, item, show);
    var key :| key in RowObject(children, here, item, show);
    rest := RowInputShape(children, here, item, show, key);
  }

  lemma RowIsSubmitted(children: seq<Spec>, name: string, items: seq<Json>, i: nat, show: Json -> string)
    requires SomeSubmits(children) && i < |items|
    ensures i in Indices(name, EncodeAll(BindRows(children, name, items, 0, show), show))
  {
    hide SameInputs, IndexOf, Indices, EncodeAll, BindRows, BindMembers, SomeSubmits, Sub, RowObject;
    var data := EncodeAll(BindRows(children, name, items, 0, show), show);
    var here := Sub(name, Decimal(i));
    var rest := RowHasInput(children, here, items[i], show);
    RowsSeparate(children, name, items, 0, show, i);
    SubmittedInBoth(data, RowObject(children, here, items[i], show), here, rest);
    IndexOfRow(name, i, rest);
    IndexIsSubmitted(name, data, here + "." + rest, i);
  }

  lemma IndexIsSubmitted(name: string, data: Data, key: string, i: nat)
    requires key in data && IndexOf(name, key) == Some(i)
    ensures i in Indices(name, data)
  {
  }

  lemma SubmittedInBoth(d: Data, e: Data, name: string, rest: string)
    requires SameInputs(d, name, e, name) && name + "." + rest in e
    ensures name + "." + rest in d
  {
    var s := "." + rest;
    assert name + "." + rest == name + s && Under(s);
    assert Lookup(d, name, s) == Lookup(e, name, s);
  }

  // ------------------------------------------------------------------------------ lines

  lemma {:induction false} LineLengthAt(a: string, rest: string)
    requires SingleLine(a) && (rest == "" || IsBreak(rest[0]))
    ensures LineLength(a + rest) == |a|
  {
    if a == "" {
      assert a + rest == rest;
    } else {
      assert (a + rest)[1..] == a[1..] + rest;
      LineLengthAt(a[1..], rest);
    }
  }

  lemma SplitFirstLine(a: string, rest: string)
    requires SingleLine(a)
    ensures a != "" ==> SplitLines(a) == [a]
    ensures SplitLines(a + "\n" + rest) == [a] + SplitLines(rest)
  {
    LineLengthAt(a, "");
    assert a + "" == a;
    var s := a + "\n" + rest;
    assert s == a + ("\n" + rest);
    LineLengthAt(a, "\n" + rest);
    assert s[..|a|] == a && s[|a|] == '\n' && s[|a| + 1..] == rest;
  }

  lemma {:induction false} LinesRoundTrip(items: seq<Json>, show: Json -> string)
    requires forall i | 0 <= i < |items| :: CanonicalLine(items[i])
    ensures CleanLines(SplitLines(Join(ShowAll(items, show)))) == items
    decreases |items|
  {
    if items != [] {
      var a, rest := items[0].text, items[1..];
      StripTrims(a);
      LinesRoundTrip(rest, show);
      SplitFirstLine(a, Join(ShowAll(rest, show)));
      assert ShowAll(items, show) == [a] + ShowAll(rest, show);
      assert ([a] + ShowAll(rest, show))[1..] == ShowAll(rest, show);
      assert items == [items[0]] + rest;
      if rest == [] {
        assert [a][1..] == [];
      } else {
        assert ([a] + SplitLines(Join(ShowAll(rest, show))))[1..] == SplitLines(Join(ShowAll(rest, show)));
      }
    }
  }

  lemma {:induction false} CleanLinesCanonical(lines: seq<string>)
    requires forall i | 0 <= i < |lines| :: SingleLine(lines[i])
    ensures forall i | 0 <= i < |CleanLines(lines)| :: CanonicalLine(CleanLines(lines)[i])
  {
    if lines != [] {
      StripTrims(lines[0]);
      CleanLinesCanonical(lines[1..]);
      var text := Strip(lines[0]);
      assert forall c | c in lines[0] :: !IsBreak(c);
      assert forall i | 0 <= i < |text| :: text[i] in text;
    }
  }

  lemma {:induction false} SplitLinesSingle(s: string)
    ensures forall i | 0 <= i < |SplitLines(s)| :: SingleLine(SplitLines(s)[i])
    decreases |s|
  {
    var n := LineLength(s);
    if s != "" && n < |s| {
      var skip := if s[n] == '\r' && n + 1 < |s| && s[n + 1] == '\n' then 2 else 1;
      SplitLinesSingle(s[n + skip..]);
    }
  }

  // ------------------------------------------------------------------------- round trip

  /** Parsing what a browser submits for a bound value gives the value back. */
  lemma {:induction false} RoundTrip(spec: Spec, name: string, v: Json, show: Json -> string)
    requires WellFormed(spec) && Canonical(spec, v)
    ensures Parse(spec, name, Encode(Bind(spec, name, v, show), show)) == v
    decreases spec, 2, 0
  {
    hide WellFormedAll, CanonicalMembers, CanonicalRows;
    match spec
    case ScalarSpec(_, nullable, _) => ScalarRoundTrip(spec, name, v, show);
    case BoolSpec(_, _) => BoolRoundTrip(spec, name, v, show);
    case LinesSpec(_, _) => LinesRoundTrip(v.items, show);
    case ObjectSpec(_, nullable, children) => ObjectSpecRoundTrip(spec, name, v, show);
    case RowsSpec(_, _, children) => RowsSpecRoundTrip(spec, name, v, show);
  }

  lemma {:induction false} ObjectSpecRoundTrip(spec: Spec, name: string, v: Json, show: Json -> string)
    requires spec.ObjectSpec? && WellFormed(spec) && Canonical(spec, v)
    ensures Parse(spec, name, Encode(Bind(spec, name, v, show), show)) == v
    decreases spec, 1, 0
  {
    hide SameInputs, Toggled, EncodeAll, BindMembers;
    var on := spec.nullable && v == JNull;
    var data := NullToggle(name, on) + RowObject(spec.children, name, v, show);
    AllLabelled(spec.children);
    ToggleSeparate(spec.children, name, v, show, on);
    if !on {
      ObjectRoundTrip(spec.children, name, v, data, show);
    }
  }

  lemma {:induction false} RowsSpecRoundTrip(spec: Spec, name: string, v: Json, show: Json -> string)
    requires spec.RowsSpec? && WellFormed(spec) && Canonical(spec, v)
    ensures Parse(spec, name, Encode(Bind(spec, name, v, show), show)) == v
    decreases spec, 1, 0
  {
    hide SameInputs, SortedIndices, EncodeAll, BindRows, ParseRows;
    var children := spec.children;
    var data := EncodeAll(BindRows(children, name, v.items, 0, show), show);
    SubmittedIndices(children, name, v.items, show);
    forall k | 0 <= k < |v.items|
      ensures var here := Sub(name, Decimal(0 + k));
        SameInputs(data, here, RowObject(children, here, v.items[k], show), here)
    {
      RowsSeparate(children, name, v.items, 0, show, k);
    }
    RowsRoundTrip(children, name, v.items, 0, data, show);
  }

  lemma ScalarRoundTrip(spec: Spec, name: string, v: Json, show: Json -> string)
    requires spec.ScalarSpec? && Canonical(spec, v)
    ensures Parse(spec, name, Encode(Bind(spec, name, v, show), show)) == v
  {
    assert Sub(name, "null")[|name|] == '.';
    assert Sub(name, "null") != name;
    if v.JString? {
      StripTrims(v.text);
    }
  }

  lemma BoolRoundTrip(spec: Spec, name: string, v: Json, show: Json -> string)
    requires spec.BoolSpec? && Canonical(spec, v)
    ensures Parse(spec, name, Encode(Bind(spec, name, v, show), show)) == v
  {
    assert Sub(name, "null")[|name|] == '.';
    assert Sub(name, "null") != name;
    StripTrims("true");
    StripTrims("false");
    StripTrims("");
  }

  lemma {:induction false} ObjectRoundTrip(children: seq<Spec>, name: string, v: Json, data: Data, show: Json -> string)
    requires WellFormedAll(children) && v.JObject? && CanonicalMembers(children, v.members)
    requires forall c | c in children ::
               SameInputs(data, Sub(name, c.tag), RowObject(children, name, v, show), Sub(name, c.tag))
    ensures ParseMembers(children, name, data) == v.members
    decreases children, 1, 0
  {
    hide SameInputs, LabelledAll, WellFormedAll, EncodeAll, BindMembers, ParseMembers;
    AllLabelled(children);
    forall k | 0 <= k < |children|
      ensures var here := Sub(name, children[k].tag);
        SameInputs(data, here, Encode(Bind(children[k], here, Member(v, children[k].tag), show), show), here)
    {
      var c, here := children[k], Sub(name, children[k].tag);
      assert c in children;
      MembersSeparate(children, name, v, show, k);
      SameInputsTransitive(data, RowObject(children, name, v, show),
                           Encode(Bind(c, here, Member(v, c.tag), show), show), here);
    }
    MembersRoundTrip(children, name, v, data, show);
  }

  lemma {:induction false} MembersRoundTrip(children: seq<Spec>, name: string, v: Json, data: Data,
                                            show: Json -> string)
    requires WellFormedAll(children) && v.JObject? && CanonicalAll(children, v.members)
    requires forall k | 0 <= k < |children| ::
               var here := Sub(name, children[k].tag);
               SameInputs(data, here, Encode(Bind(children[k], here, Member(v, children[k].tag), show), show), here)
    ensures ParseMembers(children, name, data).Keys == Tags(children)
    ensures forall tag | tag in Tags(children) ::
              tag in v.members && ParseMembers(children, name, data)[tag] == v.members[tag]
    decreases children, 0, 0
  {
    if children != [] {
      var c, rest := children[0], children[1..];
      var here := Sub(name, c.tag);
      var own := Encode(Bind(c, here, Member(v, c.tag), show), show);
      RoundTrip(c, here, v.members[c.tag], show);
      ParseRelocates(c, data, here, own, here);
      forall k | 0 <= k < |rest|
        ensures var there := Sub(name, rest[k].tag);
          SameInputs(data, there, Encode(Bind(rest[k], there, Member(v, rest[k].tag), show), show), there)
      {
        assert rest[k] == children[k + 1];
      }
      MembersRoundTrip(rest, name, v, data, show);
      TagsSplit(children);
    }
  }

  lemma TagsSplit(children: seq<Spec>)
    requires children != []
    ensures Tags(children) == {children[0].tag} + Tags(children[1..])
  {
    assert children == [children[0]] + children[1..];
  }

  lemma SameAsItself(d: Data, name: string)
    ensures SameInputs(d, name, d, name)
  {
  }

  lemma {:induction false} RowRoundTrip(children: seq<Spec>, here: string, item: Json, data: Data, show: Json -> string)
    requires WellFormedAll(children) && item.JObject? && CanonicalMembers(children, item.members)
    requires SameInputs(data, here, RowObject(children, here, item, show), here)
    ensures ParseMembers(children, here, data) == item.members
    decreases children, 2, 0
  {
    hide SameInputs, CanonicalMembers;
    var own := RowObject(children, here, item, show);
    MembersRelocate(children, data, here, own, here);
    forall c | c in children ensures SameInputs(own, Sub(here, c.tag), own, Sub(here, c.tag)) {
      SameAsItself(own, Sub(here, c.tag));
    }
    ObjectRoundTrip(children, here, item, own, show);
  }

  /** Every row's inputs stand in `data` under consecutive indices. */
  ghost predicate RowsSubmitted(children: seq<Spec>, name: string, items: seq<Json>, first: nat, data: Data,
                                show: Json -> string) {
    forall k | 0 <= k < |items| ::
      var here := Sub(name, Decimal(first + k));
      SameInputs(data, here, RowObject(children, here, items[k], show), here)
  }

  lemma RowsSubmittedSplit(children: seq<Spec>, name: string, items: seq<Json>, first: nat, data: Data,
                           show: Json -> string)
    requires items != [] && RowsSubmitted(children, name, items, first, data, show)
    ensures var here := Sub(name, Decimal(first));
      SameInputs(data, here, RowObject(children, here, items[0], show), here)
    ensures RowsSubmitted(children, name, items[1..], first + 1, data, show)
  {
    assert first + 0 == first;
    forall k | 0 <= k < |items[1..]|
      ensures var there := Sub(name, Decimal(first + 1 + k));
        SameInputs(data, there, RowObject(children, there, items[1..][k], show), there)
    {
      assert first + 1 + k == first + (k + 1) && items[1..][k] == items[k + 1];
    }
  }

  lemma {:induction false} RowsRoundTrip(children: seq<Spec>, name: string, items: seq<Json>, first: nat,
                                         data: Data, show: Json -> string)
    requires WellFormedAll(children) && CanonicalRows(children, items)
    requires RowsSubmitted(children, name, items, first, data, show)
    ensures ParseRows(children, name, Range(first, |items|), data) == items
    decreases children, 3, |items|
  {
    hide SameInputs, WellFormedAll, CanonicalMembers, RowsSubmitted, RowObject;
    if items != [] {
      RowsSubmittedSplit(children, name, items, first, data, show);
      RowRoundTrip(children, Sub(name, Decimal(first)), items[0], data, show);
      RowsRoundTrip(children, name, items[1..], first + 1, data, show);
      assert Range(first, |items|)[1..] == Range(first + 1, |items[1..]|);
      assert items == [items[0]] + items[1..];
    }
  }

  // --------------------------------------------------------------------- normalisation

  /** Whatever is submitted, what parses is a value the form can express. */
  lemma {:induction false} ParseIsCanonical(spec: Spec, name: string, data: Data)
    requires WellFormed(spec)
    ensures Canonical(spec, Parse(spec, name, data))
    decreases spec, 2, 0
  {
    match spec
    case ScalarSpec(_, _, _) => StripTrims(GetOr(data, name));
    case BoolSpec(_, _) =>
    case LinesSpec(_, _) =>
      SplitLinesSingle(GetOr(data, name));
      CleanLinesCanonical(SplitLines(GetOr(data, name)));
    case ObjectSpec(_, _, children) => MembersCanonical(children, name, data);
    case RowsSpec(_, _, children) => RowsCanonical(children, name, SortedIndices(name, data), data);
  }

  lemma {:induction false} MembersCanonical(children: seq<Spec>, name: string, data: Data)
    requires WellFormedAll(children)
    ensures CanonicalMembers(children, ParseMembers(children, name, data))
    decreases children, 1, 0
  {
    if children != [] {
      var rest := ParseMembers(children[1..], name, data);
      ParseIsCanonical(children[0], Sub(name, children[0].tag), data);
      MembersCanonical(children[1..], name, data);
      TagsSplit(children);
      assert children[0].tag !in Tags(children[1..]);
      CanonicalAllExtends(children[1..], rest, ParseMembers(children, name, data));
    }
  }

  lemma {:induction false} CanonicalAllExtends(children: seq<Spec>, members: map<string, Json>, more: map<string, Json>)
    requires CanonicalAll(children, members)
    requires forall tag | tag in Tags(children) :: tag in members && tag in more && more[tag] == members[tag]
    ensures CanonicalAll(children, more)
    decreases |children|
  {
    if children != [] {
      TagsSplit(children);
      CanonicalAllExtends(children[1..], members, more);
    }
  }

  lemma {:induction false} RowsCanonical(children: seq<Spec>, name: string, indices: seq<nat>, data: Data)
    requires WellFormedAll(children)
    ensures CanonicalRows(children, ParseRows(children, name, indices, data))
    decreases children, 2, |indices|
  {
    if indices != [] {
      MembersCanonical(children, Sub(name, Decimal(indices[0])), data);
      RowsCanonical(children, name, indices[1..], data);
      var row := ParseMembers(children, Sub(name, Decimal(indices[0])), data);
      var rest := ParseRows(children, name, indices[1..], data);
      assert ([JObject(row)] + rest)[1..] == rest && [] + rest == rest;
    }
  }

  /** The round trip returns the value exactly when the form can express it. */
  lemma RoundTripExactlyWhenCanonical(spec: Spec, name: string, v: Json, show: Json -> string)
    requires WellFormed(spec)
    ensures Parse(spec, name, Encode(Bind(spec, name, v, show), show)) == v <==> Canonical(spec, v)
  {
    if Canonical(spec, v) {
      RoundTrip(spec, name, v, show);
    } else {
      ParseIsCanonical(spec, name, Encode(Bind(spec, name, v, show), show));
    }
  }

  /** Re-rendering a parsed submission and submitting it untouched changes nothing. */
  lemma ParsingIsIdempotent(spec: Spec, name: string, data: Data, other: string, show: Json -> string)
    requires WellFormed(spec)
    ensures var v := Parse(spec, name, data);
      Parse(spec, other, Encode(Bind(spec, other, v, show), show)) == v
  {
    ParseIsCanonical(spec, name, data);
    RoundTrip(spec, other, Parse(spec, name, data), show);
  }

  // ------------------------------------------------- which forms lose a value they can express

  /** A value with an "x" in every text and empty lists. */
  function Sample(spec: Spec): Json
    decreases spec, 1
  {
    match spec
    case ScalarSpec(_, _, _) => JString("x")
    case BoolSpec(_, _) => JNull
    case LinesSpec(_, _) => JList([])
    case ObjectSpec(_, _, children) => JObject(SampleMembers(children))
    case RowsSpec(_, _, _) => JList([])
  }

  function SampleMembers(children: seq<Spec>): map<string, Json>
    decreases children, 0
  {
    if children == [] then map[] else SampleMembers(children[1..])[children[0].tag := Sample(children[0])]
  }

  lemma {:induction false} SampleMembersAre(children: seq<Spec>)
    requires LabelledAll(children)
    ensures SampleMembers(children).Keys == Tags(children)
    ensures forall c | c in children :: SampleMembers(children)[c.tag] == Sample(c)
    decreases |children|
  {
    if children != [] {
      SampleMembersAre(children[1..]);
      TagsSplit(children);
    }
  }

  lemma {:induction false} CanonicalByMember(children: seq<Spec>, members: map<string, Json>)
    requires forall c | c in children :: c.tag in members && Canonical(c, members[c.tag])
    ensures CanonicalAll(children, members)
    decreases |children|
  {
    if children != [] {
      assert children[0] in children;
      CanonicalByMember(children[1..], members);
    }
  }

  lemma {:induction false} SampleIsCanonical(spec: Spec)
    requires Labelled(spec)
    ensures Canonical(spec, Sample(spec))
    decreases spec
  {
    if spec.ObjectSpec? {
      SampleMembersAre(spec.children);
      forall c | c in spec.children ensures Canonical(c, Sample(c)) {
        TagIsPlain(spec.children, c);
        SampleIsCanonical(c);
      }
      CanonicalByMember(spec.children, SampleMembers(spec.children));
    }
  }

  lemma SampleMembersCanonical(children: seq<Spec>)
    requires LabelledAll(children)
    ensures CanonicalMembers(children, SampleMembers(children))
  {
    SampleIsCanonical(ObjectSpec("", false, children));
  }

  /** Members that need not submit anything submit nothing for the sample. */
  lemma {:induction false} SampleSubmitsNothing(spec: Spec, name: string, show: Json -> string)
    requires Labelled(spec) && !AlwaysSubmits(spec)
    ensures Encode(Bind(spec, name, Sample(spec), show), show) == map[]
    decreases spec, 1
  {
    if spec.ObjectSpec? {
      SampleMembersAre(spec.children);
      MembersSubmitNothing(spec.children, name, Sample(spec), show);
    }
  }

  lemma {:induction false} MembersSubmitNothing(children: seq<Spec>, name: string, v: Json, show: Json -> string)
    requires LabelledAll(children) && !SomeSubmits(children)
    requires forall c | c in children :: Member(v, c.tag) == Sample(c)
    ensures RowObject(children, name, v, show) == map[]
    decreases children, 0
  {
    if children != [] {
      var c := children[0];
      assert c in children;
      SampleSubmitsNothing(c, Sub(name, c.tag), show);
      MembersSubmitNothing(children[1..], name, v, show);
      assert BindMembers(children, name, v, show)[1..] == BindMembers(children[1..], name, v, show);
    }
  }

  lemma {:induction false} NoTextInput(children: seq<Spec>, c: Spec)
    requires !SomeSubmits(children) && c in children
    ensures !IsTextInput(c)
  {
    if c != children[0] {
      NoTextInput(children[1..], c);
    }
  }

  /** A list whose rows need not submit anything loses the row of samples: the page submits
      nothing for it. */
  lemma RowWithoutInputsIsLost(tag: string, nullable: bool, children: seq<Spec>, name: string, show: Json -> string)
    requires LabelledAll(children) && !SomeSubmits(children)
    ensures var spec, v := RowsSpec(tag, nullable, children), JList([JObject(SampleMembers(children))]);
      && Canonical(spec, v)
      && Encode(Bind(spec, name, v, show), show) == map[]
      && Parse(spec, name, Encode(Bind(spec, name, v, show), show)) == JList([])
  {
    var item := JObject(SampleMembers(children));
    SampleMembersAre(children);
    SampleMembersCanonical(children);
    forall c | c in children ensures !IsTextInput(c) { NoTextInput(children, c); }
    MembersSubmitNothing(children, Sub(name, Decimal(0)), item, show);
    assert [item][1..] == [];
    assert !Blank(children, item.members) && CanonicalRows(children, [item]);
    hide CanonicalMembers, SampleMembers, RowObject;
    FirstRowFirst(children, name, [item], 0, show);
    assert EncodeAll(BindRows(children, name, [], 1, show), show) == map[];
    assert Indices(name, map[]) == {};
    Ordering.NoElements(SortedIndices(name, map[]));
  }

  /** A member that does not survive on its own does not survive in its object. */
  lemma ParsedMember(children: seq<Spec>, name: string, v: Json, data: Data, show: Json -> string, k: nat)
    requires LabelledAll(children) && k < |children|
    requires var here := Sub(name, children[k].tag);
      SameInputs(data, here, RowObject(children, name, v, show), here)
    ensures var c := children[k];
      var here := Sub(name, c.tag);
      && c.tag in ParseMembers(children, name, data)
      && ParseMembers(children, name, data)[c.tag]
          == Parse(c, here, Encode(Bind(c, here, Member(v, c.tag), show), show))
  {
    hide SameInputs, Labelled, LabelledAll;
    var c, here := children[k], Sub(name, children[k].tag);
    var own := Encode(Bind(c, here, Member(v, c.tag), show), show);
    MembersSeparate(children, name, v, show, k);
    SameInputsTransitive(data, RowObject(children, name, v, show), own, here);
    ParseRelocates(c, data, here, own, here);
    MemberAt(children, name, data, k);
  }

  lemma {:induction false} MemberAt(children: seq<Spec>, name: string, data: Data, k: nat)
    requires LabelledAll(children) && k < |children|
    ensures var c := children[k];
      && c.tag in ParseMembers(children, name, data)
      && ParseMembers(children, name, data)[c.tag] == Parse(c, Sub(name, c.tag), data)
    decreases |children|
  {
    hide Parse;
    if k > 0 {
      MemberAt(children[1..], name, data, k - 1);
    } else {
      ParsedTags(children[1..], name, data);
      assert children[0].tag !in Tags(children[1..]);
    }
  }

  lemma {:induction false} ParsedTags(children: seq<Spec>, name: string, data: Data)
    ensures ParseMembers(children, name, data).Keys == Tags(children)
    decreases |children|
  {
    hide Parse;
    if children != [] {
      ParsedTags(children[1..], name, data);
      TagsSplit(children);
    }
  }

  /** With sound labels, a list of members that is not well formed has a member that is not. */
  lemma {:induction false} IllFormedMember(children: seq<Spec>) returns (k: nat)
    requires LabelledAll(children) && !WellFormedAll(children)
    ensures k < |children| && !WellFormed(children[k]) && Labelled(children[k]) && children[k] in children
    decreases |children|
  {
    if !WellFormed(children[0]) {
      k := 0;
    } else {
      k := IllFormedMember(children[1..]);
      k := k + 1;
    }
  }

  /** The sample with one member replaced. */
  lemma WithMember(children: seq<Spec>, k: nat, w: Json)
    requires LabelledAll(children) && k < |children| && Canonical(children[k], w) && !IsTextInput(children[k])
    ensures var members := SampleMembers(children)[children[k].tag := w];
      CanonicalMembers(children, members) && !Blank(children, members)
  {
    var members := SampleMembers(children)[children[k].tag := w];
    SampleMembersAre(children);
    assert children[k] in children;
    forall c | c in children ensures c.tag == children[k].tag ==> c == children[k] {
      if c.tag == children[k].tag {
        TagDetermines(children, c, children[k]);
      }
    }
    forall c | c in children ensures Canonical(c, members[c.tag]) {
      TagIsPlain(children, c);
      SampleIsCanonical(c);
    }
    CanonicalByMember(children, members);
  }

  lemma {:induction false} TagDetermines(children: seq<Spec>, c: Spec, d: Spec)
    requires LabelledAll(children) && c in children && d in children && c.tag == d.tag
    ensures c == d
    decreases |children|
  {
    if c != children[0] && d != children[0] {
      TagDetermines(children[1..], c, d);
    }
  }

  /** With sound labels, a form that is not well formed loses a value that it can express. */
  lemma {:induction false} LostValue(spec: Spec, name: string, show: Json -> string) returns (v: Json)
    requires Labelled(spec) && !WellFormed(spec)
    ensures Canonical(spec, v) && Parse(spec, name, Encode(Bind(spec, name, v, show), show)) != v
    decreases spec
  {
    var children := spec.children;
    if spec.RowsSpec? && !SomeSubmits(children) {
      v := JList([JObject(SampleMembers(children))]);
      RowWithoutInputsIsLost(spec.tag, spec.nullable, children, name, show);
    } else {
      var k := IllFormedMember(children);
      var here := if spec.RowsSpec? then Sub(name, Decimal(0)) else name;
      var w := LostValue(children[k], Sub(here, children[k].tag), show);
      WithMember(children, k, w);
      var item := JObject(SampleMembers(children)[children[k].tag := w]);
      if spec.RowsSpec? {
        v := JList([item]);
        RowLost(spec, name, item, show, k);
      } else {
        v := item;
        ObjectLost(spec, name, v, show, k);
      }
    }
  }

  lemma ObjectLost(spec: Spec, name: string, v: Json, show: Json -> string, k: nat)
    requires spec.ObjectSpec? && Labelled(spec) && v.JObject? && k < |spec.children|
    requires var c := spec.children[k];
      var here := Sub(name, c.tag);
      c.tag in v.members && Parse(c, here, Encode(Bind(c, here, v.members[c.tag], show), show)) != v.members[c.tag]
    ensures Parse(spec, name, Encode(Bind(spec, name, v, show), show)) != v
  {
    hide SameInputs, Toggled, EncodeAll, BindMembers, ParseMembers, LabelledAll;
    var data := NullToggle(name, false) + RowObject(spec.children, name, v, show);
    ToggleSeparate(spec.children, name, v, show, false);
    assert spec.children[k] in spec.children;
    ParsedMember(spec.children, name, v, data, show, k);
  }

  lemma RowLost(spec: Spec, name: string, item: Json, show: Json -> string, k: nat)
    requires spec.RowsSpec? && Labelled(spec) && SomeSubmits(spec.children) && item.JObject? && k < |spec.children|
    requires var c := spec.children[k];
      var here := Sub(Sub(name, Decimal(0)), c.tag);
      c.tag in item.members
          && Parse(c, here, Encode(Bind(c, here, item.members[c.tag], show), show)) != item.members[c.tag]
    ensures Parse(spec, name, Encode(Bind(spec, name, JList([item]), show), show)) != JList([item])
  {
    hide SameInputs, SortedIndices, EncodeAll, BindRows, ParseMembers, LabelledAll, RowObject, SomeSubmits, Blank;
    var children, here := spec.children, Sub(name, Decimal(0));
    var data := EncodeAll(BindRows(children, name, [item], 0, show), show);
    SubmittedIndices(children, name, [item], show);
    assert Range(0, |[item]|) == [0];
    RowsSeparate(children, name, [item], 0, show, 0);
    SameBelow(data, here, RowObject(children, here, item, show), here, children[k].tag);
    ParsedMember(children, here, item, data, show, k);
    var row := ParseMembers(children, here, data);
    ParseRowsStep(children, name, [0], 0, data);
    NoRowsLeft(children, name, data);
    assert [0][0..] == [0] && [0][1..] == [];
    assert row != item.members;
  }

  /** With sound labels, a form returns every value that it can express exactly when each of
      its rows has an input that always submits. */
  lemma EveryValueSurvivesExactlyWhenWellFormed(spec: Spec, name: string, show: Json -> string)
    requires Labelled(spec)
    ensures WellFormed(spec) <==>
            forall v | Canonical(spec, v) :: Parse(spec, name, Encode(Bind(spec, name, v, show), show)) == v
  {
    hide Canonical, Parse, Encode, Bind, Labelled;
    if WellFormed(spec) {
      forall v | Canonical(spec, v) ensures Parse(spec, name, Encode(Bind(spec, name, v, show), show)) == v {
        RoundTrip(spec, name, v, show);
      }
    } else {
      var v := LostValue(spec, name, show);
    }
  }
}
