/** Types shared by every component: row identifiers, clock readings, optional
    columns and JSON values. */
module Common {
  type Id = nat
  type Time = int

  /** A nullable column: `None` is SQL NULL. */
  datatype Option<+T> = None | Some(value: T)

  datatype Result<+T, +E> = Ok(value: T) | Err(error: E)

  /** A JSON value.  `JNull` is a value like any other, so `Some(JNull)` in a
      nullable column differs from `None`. */
  datatype Json =
    | JNull
    | JBool(flag: bool)
    | JString(text: string)
    | JList(items: seq<Json>)
    | JObject(members: map<string, Json>)

  /** The characters for which Python's `str.isspace` holds; `str.strip` and the
      regular expression class `\s` use the same set. */
  predicate IsSpace(c: char) {
    var n := c as int;
    || 9 <= n <= 13 || 28 <= n <= 32 || n == 0x85 || n == 0xA0 || n == 0x1680
    || 0x2000 <= n <= 0x200A || n == 0x2028 || n == 0x2029 || n == 0x202F
    || n == 0x205F || n == 0x3000
  }

  function TrimLeft(s: string): (r: string) {
    if s != [] && IsSpace(s[0]) then TrimLeft(s[1..]) else s
  }

  function TrimRight(s: string): (r: string) {
    if s != [] && IsSpace(s[|s| - 1]) then TrimRight(s[..|s| - 1]) else s
  }

  /** `str.strip`. */
  function Strip(s: string): (r: string) {
    TrimRight(TrimLeft(s))
  }

  predicate Trimmed(s: string) {
    s == [] || (!IsSpace(s[0]) && !IsSpace(s[|s| - 1]))
  }

  lemma {:induction false} TrimLeftKeepsEnd(s: string)
    ensures |TrimLeft(s)| <= |s|
    ensures TrimLeft(s) != [] ==> !IsSpace(TrimLeft(s)[0])
    ensures TrimLeft(s) == s[|s| - |TrimLeft(s)|..]
  {
    if s != [] && IsSpace(s[0]) {
      TrimLeftKeepsEnd(s[1..]);
    }
  }

  lemma {:induction false} TrimRightKeepsStart(s: string)
    ensures |TrimRight(s)| <= |s|
    ensures TrimRight(s) != [] ==> !IsSpace(TrimRight(s)[|TrimRight(s)| - 1])
    ensures TrimRight(s) == s[..|TrimRight(s)|]
  {
    if s != [] && IsSpace(s[|s| - 1]) {
      TrimRightKeepsStart(s[..|s| - 1]);
    }
  }

  /** Stripping yields a trimmed contiguous part and leaves trimmed text alone. */
  lemma StripTrims(s: string)
    ensures Trimmed(Strip(s))
    ensures Trimmed(s) ==> Strip(s) == s
    ensures forall c | c in Strip(s) :: c in s
  {
    TrimLeftKeepsEnd(s);
    TrimRightKeepsStart(TrimLeft(s));
  }

  predicate AllSpace(s: string) {
    forall i | 0 <= i < |s| :: IsSpace(s[i])
  }

  lemma {:induction false} TrimLeftEmpty(s: string)
    ensures TrimLeft(s) == "" <==> AllSpace(s)
  {
    if s != [] && IsSpace(s[0]) {
      TrimLeftEmpty(s[1..]);
      assert AllSpace(s) <==> AllSpace(s[1..]) by {
        assert forall i | 0 <= i < |s| - 1 :: s[1..][i] == s[i + 1];
        assert forall i | 0 < i < |s| :: s[i] == s[1..][i - 1];
      }
    }
  }

  lemma {:induction false} TrimRightEmpty(s: string)
    ensures TrimRight(s) == "" <==> AllSpace(s)
  {
    if s != [] && IsSpace(s[|s| - 1]) {
      TrimRightEmpty(s[..|s| - 1]);
    }
  }

  /** Stripping leaves nothing of white space, and of nothing else. */
  lemma StripEmpty(s: string)
    ensures Strip(s) == "" <==> AllSpace(s)
  {
    TrimLeftEmpty(s);
    TrimRightEmpty(TrimLeft(s));
    TrimLeftKeepsEnd(s);
    hide TrimLeft, TrimRight;
    assert TrimLeft(s) != "" ==> !IsSpace(TrimLeft(s)[0]);
  }

  lemma {:induction false} TrimLeftCuts(s: string) returns (a: string)
    ensures s == a + TrimLeft(s) && AllSpace(a)
  {
    if s != [] && IsSpace(s[0]) {
      var rest := TrimLeftCuts(s[1..]);
      a := [s[0]] + rest;
    } else {
      a := "";
    }
  }

  lemma {:induction false} TrimRightCuts(s: string) returns (b: string)
    ensures s == TrimRight(s) + b && AllSpace(b)
  {
    if s != [] && IsSpace(s[|s| - 1]) {
      var rest := TrimRightCuts(s[..|s| - 1]);
      b := rest + [s[|s| - 1]];
    } else {
      b := "";
    }
  }

  /** What is left of a text between two stretches of white space. */
  ghost predicate LeftOf(s: string, r: string) {
    Trimmed(r) && exists a, b :: Between(s, a, r, b)
  }

  predicate Between(s: string, a: string, r: string, b: string) {
    s == a + r + b && AllSpace(a) && AllSpace(b)
  }

  lemma StripIsLeft(s: string)
    ensures LeftOf(s, Strip(s))
  {
    StripTrims(s);
    var a := TrimLeftCuts(s);
    var b := TrimRightCuts(TrimLeft(s));
    hide TrimLeft, TrimRight, Trimmed, AllSpace;
    assert s == a + Strip(s) + b;
    assert Between(s, a, Strip(s), b);
  }

  lemma {:induction false} TrimLeftSkips(a: string, r: string)
    requires AllSpace(a) && (r == "" || !IsSpace(r[0]))
    ensures TrimLeft(a + r) == r
  {
    if a == "" {
      assert a + r == r;
    } else {
      assert (a + r)[1..] == a[1..] + r;
      TrimLeftSkips(a[1..], r);
    }
  }

  lemma {:induction false} TrimRightSkips(r: string, b: string)
    requires AllSpace(b) && (r == "" || !IsSpace(r[|r| - 1]))
    ensures TrimRight(r + b) == r
  {
    if b == "" {
      assert r + b == r;
    } else {
      assert (r + b)[..|r + b| - 1] == r + b[..|b| - 1];
      TrimRightSkips(r, b[..|b| - 1]);
    }
  }

  /** Stripping is the one way to cut white space off both ends. */
  lemma StripExactly(s: string, r: string)
    ensures LeftOf(s, r) <==> r == Strip(s)
  {
    StripIsLeft(s);
    if LeftOf(s, r) {
      var a, b :| Between(s, a, r, b);
      if r == "" {
        assert AllSpace(s);
        StripEmpty(s);
      } else {
        assert s == a + (r + b) && (r + b)[0] == r[0];
        TrimLeftSkips(a, r + b);
        TrimRightSkips(r, b);
      }
    }
  }
}
