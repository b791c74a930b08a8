/** Input names of a form: siblings never share one, and parsing depends on nothing but
    the inputs under its own name and the order of its row indices. */
module FormsLocality {
  import opened Common
  import opened Forms
  import Ordering

  // -------------------------------------------------------------- numbers and names

  lemma {:induction false} DecimalValue(n: nat)
    ensures DigitsValue(Decimal(n)) == n
  {
    var s := Decimal(n);
    if n >= 10 {
      DecimalValue(n / 10);
      assert s[..|s| - 1] == Decimal(n / 10);
    } else {
      assert s[..|s| - 1] == "";
    }
    assert s[|s| - 1] == '0' + (n % 10) as char;
  }

  lemma {:induction false} DigitPrefixIs(digits: string, rest: string)
    requires forall c | c in digits :: IsDigit(c)
    requires rest == "" || !IsDigit(rest[0])
    ensures DigitPrefix(digits + rest) == digits
  {
    if digits == "" {
      assert digits + rest == rest;
    } else {
      assert (digits + rest)[1..] == digits[1..] + rest;
      DigitPrefixIs(digits[1..], rest);
    }
  }

  /** An input of row `i` has index `i`. */
  lemma IndexOfRow(name: string, i: nat, rest: string)
    ensures IndexOf(name, Sub(name, Decimal(i)) + "." + rest) == Some(i)
  {
    var key := Sub(name, Decimal(i)) + "." + rest;
    assert key == Sub(name, "") + (Decimal(i) + ("." + rest));
    assert key[|name| + 1..] == Decimal(i) + ("." + rest);
    DigitPrefixIs(Decimal(i), "." + rest);
    DecimalValue(i);
  }

  /** An input carries a row index exactly when it reads as the name, a dot, the digits of the
      index, another dot, and anything. */
  lemma IndexExactly(name: string, key: string, i: nat)
    ensures IndexOf(name, key) == Some(i) <==> exists digits, rest :: ReadsAsRow(name, key, i, digits, rest)
  {
    if IndexOf(name, key) == Some(i) {
      var tail := key[|name| + 1..];
      var digits := DigitPrefix(tail);
      assert key == name + "." + tail && tail == digits + "." + tail[|digits| + 1..];
      assert ReadsAsRow(name, key, i, digits, tail[|digits| + 1..]);
    }
    if digits, rest :| ReadsAsRow(name, key, i, digits, rest) {
      assert key == Sub(name, "") + (digits + ("." + rest));
      assert key[|name| + 1..] == digits + ("." + rest);
      DigitPrefixIs(digits, "." + rest);
    }
  }

  predicate ReadsAsRow(name: string, key: string, i: nat, digits: string, rest: string) {
    && key == name + "." + digits + "." + rest
    && digits != "" && (forall c | c in digits :: IsDigit(c)) && DigitsValue(digits) == i
  }

  /** A suffix that stays inside the input it extends. */
  predicate Under(s: string) {
    s == "" || s[0] == '.'
  }

  /** Dot-free labels of siblings never share an input name. */
  lemma SiblingsDisjoint(name: string, a: string, b: string, s: string, t: string)
    requires DotFree(a) && DotFree(b) && Under(s) && Under(t)
    requires Sub(name, a) + s == Sub(name, b) + t
    ensures a == b
  {
    var tail := (Sub(name, a) + s)[|name| + 1..];
    assert tail == a + s && tail == b + t;
    assert forall i | 0 <= i < |a| :: tail[i] == a[i] && a[i] in a;
    assert forall i | 0 <= i < |b| :: tail[i] == b[i] && b[i] in b;
    assert (s != "" ==> tail[|a|] == '.') && (t != "" ==> tail[|b|] == '.');
    assert |a| == |b|;
    assert tail[..|a|] == a && tail[..|b|] == b;
  }

  // ------------------------------------------------------------ locality and relocation

  function Lookup(data: Data, name: string, s: string): Option<string> {
    if name + s in data then Some(data[name + s]) else None
  }

  /** The inputs under `n` in one submission are those under `m` in the other. */
  ghost predicate SameInputs(d: Data, n: string, e: Data, m: string) {
    forall s | Under(s) :: Lookup(d, n, s) == Lookup(e, m, s)
  }

  lemma SameBelow(d: Data, n: string, e: Data, m: string, tag: string)
    requires SameInputs(d, n, e, m)
    ensures SameInputs(d, Sub(n, tag), e, Sub(m, tag))
  {
    forall s | Under(s)
      ensures Lookup(d, Sub(n, tag), s) == Lookup(e, Sub(m, tag), s)
    {
      var t := "." + tag + s;
      assert Sub(n, tag) + s == n + t && Sub(m, tag) + s == m + t;
      assert Lookup(d, n, t) == Lookup(e, m, t);
    }
  }

  lemma SameHere(d: Data, n: string, e: Data, m: string)
    requires SameInputs(d, n, e, m)
    ensures GetOr(d, n) == GetOr(e, m) && Toggled(d, n) == Toggled(e, m)
  {
    assert n + "" == n && m + "" == m && Under("");
    assert Lookup(d, n, "") == Lookup(e, m, "");
    assert Sub(n, "null") == n + ".null" && Sub(m, "null") == m + ".null" && Under(".null");
    assert Lookup(d, n, ".null") == Lookup(e, m, ".null");
  }

  lemma DotFollows(n: string, s: string)
    ensures Sub(n, "") <= n + s <==> s != "" && s[0] == '.'
  {
    if s != "" {
      assert (n + s)[|n|] == s[0] && Sub(n, "")[|n|] == '.';
      if s[0] == '.' {
        assert Sub(n, "") == (n + s)[..|n| + 1];
      }
    }
  }

  /** Whether an input carries a row index depends on what follows the name. */
  lemma IndexOfSuffix(n: string, m: string, s: string)
    ensures IndexOf(n, n + s) == IndexOf(m, m + s)
  {
    DotFollows(n, s);
    DotFollows(m, s);
    if s != "" && s[0] == '.' {
      assert (n + s)[|n| + 1..] == s[1..] == (m + s)[|m| + 1..];
    }
  }

  lemma IndicesIncluded(d: Data, n: string, e: Data, m: string)
    requires SameInputs(d, n, e, m)
    ensures Indices(n, d) <= Indices(m, e)
  {
    forall i | i in Indices(n, d)
      ensures i in Indices(m, e)
    {
      var key :| key in d && IndexOf(n, key) == Some(i);
      var s := key[|n|..];
      assert key == n + s && Under(s);
      assert Lookup(d, n, s) == Lookup(e, m, s);
      IndexOfSuffix(n, m, s);
    }
  }

  lemma SameIndices(d: Data, n: string, e: Data, m: string)
    requires SameInputs(d, n, e, m)
    ensures SortedIndices(n, d) == SortedIndices(m, e)
  {
    IndicesIncluded(d, n, e, m);
    IndicesIncluded(e, m, d, n);
    assert Indices(n, d) == Indices(m, e);
  }

  /** Parsing depends only on the inputs under its name, and not on the name itself. */
  lemma {:induction false} ParseRelocates(spec: Spec, d: Data, n: string, e: Data, m: string)
    requires SameInputs(d, n, e, m)
    ensures Parse(spec, n, d) == Parse(spec, m, e)
    decreases spec, 2, 0
  {
    SameHere(d, n, e, m);
    hide SameInputs, Strip, SplitLines, CleanLines, SortedIndices, Toggled;
    match spec
    case ScalarSpec(_, _, _) =>
    case BoolSpec(_, _) =>
    case LinesSpec(_, _) =>
    case ObjectSpec(_, _, children) => MembersRelocate(children, d, n, e, m);
    case RowsSpec(_, _, children) =>
      SameIndices(d, n, e, m);
      RowsRelocate(children, SortedIndices(n, d), d, n, e, m);
  }

  lemma {:induction false} MembersRelocate(children: seq<Spec>, d: Data, n: string, e: Data, m: string)
    requires SameInputs(d, n, e, m)
    ensures ParseMembers(children, n, d) == ParseMembers(children, m, e)
    decreases children, 0, 0
  {
    if children != [] {
      SameBelow(d, n, e, m, children[0].tag);
      ParseRelocates(children[0], d, Sub(n, children[0].tag), e, Sub(m, children[0].tag));
      MembersRelocate(children[1..], d, n, e, m);
    }
  }

  lemma {:induction false} RowsRelocate(children: seq<Spec>, indices: seq<nat>, d: Data, n: string, e: Data, m: string)
    requires SameInputs(d, n, e, m)
    ensures ParseRows(children, n, indices, d) == ParseRows(children, m, indices, e)
    decreases children, 1, |indices|
  {
    if indices != [] {
      var tag := Decimal(indices[0]);
      SameBelow(d, n, e, m, tag);
      MembersRelocate(children, d, Sub(n, tag), e, Sub(m, tag));
      RowsRelocate(children, indices[1..], d, n, e, m);
    }
  }

  /** Parsing looks at no input outside its name. */
  lemma ParseIsLocal(spec: Spec, name: string, d: Data, e: Data)
    requires forall s | Under(s) :: Lookup(d, name, s) == Lookup(e, name, s)
    ensures Parse(spec, name, d) == Parse(spec, name, e)
  {
    ParseRelocates(spec, d, name, e, name);
  }

  // --------------------------------------------------------------------- renumbering

  function Renumbered(indices: seq<nat>, f: nat -> nat): (r: seq<nat>)
    ensures |r| == |indices| && forall i | 0 <= i < |r| :: r[i] == f(indices[i])
  {
    if indices == [] then [] else [f(indices[0])] + Renumbered(indices[1..], f)
  }

  /** `e` holds the rows of `d` under other indices. */
  ghost predicate RowsRenumbered(name: string, d: Data, e: Data, f: nat -> nat) {
    && Indices(name, e) == (set i | i in Indices(name, d) :: f(i))
    && forall i | i in Indices(name, d) :: SameInputs(d, Sub(name, Decimal(i)), e, Sub(name, Decimal(f(i))))
  }

  ghost predicate OrderPreserving(f: nat -> nat, s: set<nat>) {
    forall i, j | i in s && j in s && i < j :: f(i) < f(j)
  }

  lemma {:induction false} RenumberedElements(r: seq<nat>, f: nat -> nat)
    ensures Ordering.Elements(Renumbered(r, f)) == set i | i in Ordering.Elements(r) :: f(i)
  {
    var q := Renumbered(r, f);
    forall i | i in Ordering.Elements(r) ensures f(i) in q {
      var k :| 0 <= k < |r| && r[k] == i;
      assert q[k] == f(i);
    }
  }

  lemma RenumberedAscending(r: seq<nat>, f: nat -> nat)
    requires Ordering.Ascending(Numeric(), r) && OrderPreserving(f, Ordering.Elements(r))
    ensures Ordering.Ascending(Numeric(), Renumbered(r, f))
  {
    var q := Renumbered(r, f);
    forall i, j | 0 <= i < j < |q| ensures Numeric()(q[i], q[j]) {
      assert Numeric()(r[i], r[j]) && r[i] in Ordering.Elements(r) && r[j] in Ordering.Elements(r);
    }
  }

  lemma NumericTotal(s: set<nat>)
    ensures Ordering.StrictTotal(Numeric(), s)
  {
  }

  lemma RenumberedIsSorted(name: string, d: Data, e: Data, f: nat -> nat)
    requires RowsRenumbered(name, d, e, f) && OrderPreserving(f, Indices(name, d))
    ensures SortedIndices(name, e) == Renumbered(SortedIndices(name, d), f)
  {
    hide Indices, SortedIndices;
    var r := SortedIndices(name, d);
    RenumberedElements(r, f);
    RenumberedAscending(r, f);
    NumericTotal(Indices(name, e));
    Ordering.AscendingUnique(Numeric(), SortedIndices(name, e), Renumbered(r, f));
  }

  lemma {:induction false} RenumberedRowsParse(children: seq<Spec>, name: string, indices: seq<nat>, d: Data, e: Data,
                                               f: nat -> nat)
    requires forall i | i in indices :: SameInputs(d, Sub(name, Decimal(i)), e, Sub(name, Decimal(f(i))))
    ensures ParseRows(children, name, indices, d) == ParseRows(children, name, Renumbered(indices, f), e)
    decreases |indices|
  {
    if indices != [] {
      var i := indices[0];
      MembersRelocate(children, d, Sub(name, Decimal(i)), e, Sub(name, Decimal(f(i))));
      RenumberedRowsParse(children, name, indices[1..], d, e, f);
      assert Renumbered(indices, f)[1..] == Renumbered(indices[1..], f);
    }
  }

  /** Any order-preserving renumbering of row indices, gaps and digit counts included,
      leaves the parsed rows unchanged. */
  lemma RenumberingIsInvisible(spec: Spec, name: string, d: Data, e: Data, f: nat -> nat)
    requires spec.RowsSpec?
    requires RowsRenumbered(name, d, e, f) && OrderPreserving(f, Indices(name, d))
    ensures Parse(spec, name, d) == Parse(spec, name, e)
  {
    RenumberedIsSorted(name, d, e, f);
    hide SortedIndices, Indices, SameInputs;
    var r := SortedIndices(name, d);
    forall i | i in r ensures i in Indices(name, d) {
      assert i in Ordering.Elements(r);
    }
    RenumberedRowsParse(spec.children, name, r, d, e, f);
  }
}
