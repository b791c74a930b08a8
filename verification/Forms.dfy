/** The typed correction form: a field's type as an input tree, a value bound to named
    inputs, and the submitted inputs parsed back into a value. */
module Forms {
  import opened Common
  import Ordering

  datatype TextKind = Text | TextArea | Select(options: seq<string>)

  /** The input tree; the rows of a list of objects share their members. */
  datatype Spec =
    | ScalarSpec(tag: string, nullable: bool, kind: TextKind)
    | BoolSpec(tag: string, nullable: bool)
    | LinesSpec(tag: string, nullable: bool)
    | ObjectSpec(tag: string, nullable: bool, children: seq<Spec>)
    | RowsSpec(tag: string, nullable: bool, children: seq<Spec>)

  /** The tree with concrete input names and the current value. */
  datatype Bound =
    | BoundText(name: string, nullable: bool, value: Json)
    | BoundBool(name: string, value: Json)
    | BoundLines(name: string, lines: seq<string>)
    | BoundObject(name: string, nullable: bool, isNull: bool, members: seq<Bound>)
    | BoundRows(name: string, rows: seq<Bound>)

  /** Submitted form fields. */
  type Data = map<string, string>

  // ----------------------------------------------------------------- input names

  function Sub(name: string, tag: string): string {
    name + "." + tag
  }

  predicate DotFree(s: string) {
    '.' !in s
  }

  predicate IsDigit(c: char) {
    '0' <= c <= '9'
  }

  function Decimal(n: nat): (s: string)
    ensures s != "" && forall c | c in s :: IsDigit(c)
  {
    var digit := ['0' + (n % 10) as char];
    if n < 10 then digit else Decimal(n / 10) + digit
  }

  function DigitsValue(s: string): nat
    requires forall c | c in s :: IsDigit(c)
  {
    if s == "" then 0 else
      assert IsDigit(s[|s| - 1]);
      DigitsValue(s[..|s| - 1]) * 10 + (s[|s| - 1] as int - '0' as int)
  }

  function DigitPrefix(s: string): (d: string)
    ensures d <= s && forall c | c in d :: IsDigit(c)
  {
    if s != "" && IsDigit(s[0]) then [s[0]] + DigitPrefix(s[1..]) else ""
  }

  /** The row index in an input name: `name.`, digits, then another dot. */
  function IndexOf(name: string, key: string): Option<nat> {
    if !(Sub(name, "") <= key) then None else
    var rest := key[|name| + 1..];
    var digits := DigitPrefix(rest);
    if digits != "" && |digits| < |rest| && rest[|digits|] == '.' then Some(DigitsValue(digits)) else None
  }

  function Indices(name: string, data: Data): set<nat> {
    set key | key in data && IndexOf(name, key).Some? :: IndexOf(name, key).value
  }

  function Numeric(): (nat, nat) -> bool {
    (a, b) => a < b
  }

  /** The row indices in numeric order. */
  function SortedIndices(name: string, data: Data): (r: seq<nat>)
    ensures Ordering.Ascending(Numeric(), r) && Ordering.Elements(r) == Indices(name, data)
  {
    Ordering.Ranking(Numeric(), Indices(name, data))
  }

  // ------------------------------------------------------------------------ bind

  /** Python's `str`, given what it makes of values that are not strings. */
  function Show(v: Json, show: Json -> string): string {
    if v.JString? then v.text else show(v)
  }

  function ShowAll(items: seq<Json>, show: Json -> string): (r: seq<string>)
    ensures |r| == |items| && forall i | 0 <= i < |items| :: r[i] == Show(items[i], show)
  {
    if items == [] then [] else [Show(items[0], show)] + ShowAll(items[1..], show)
  }

  function Member(v: Json, tag: string): Json {
    if v.JObject? && tag in v.members then v.members[tag] else JNull
  }

  function Bind(spec: Spec, name: string, v: Json, show: Json -> string): Bound
    decreases spec, 2, 0
  {
    match spec
    case ScalarSpec(_, nullable, _) => BoundText(name, nullable, v)
    case BoolSpec(_, _) => BoundBool(name, v)
    case LinesSpec(_, _) => BoundLines(name, if v.JList? then ShowAll(v.items, show) else [])
    case ObjectSpec(_, nullable, children) =>
      BoundObject(name, nullable, v == JNull, BindMembers(children, name, v, show))
    case RowsSpec(_, _, children) =>
      BoundRows(name, BindRows(children, name, if v.JList? then v.items else [], 0, show))
  }

  function BindMembers(children: seq<Spec>, name: string, v: Json, show: Json -> string): (r: seq<Bound>)
    ensures |r| == |children|
    decreases children, 0, 0
  {
    if children == [] then [] else
      [Bind(children[0], Sub(name, children[0].tag), Member(v, children[0].tag), show)]
      + BindMembers(children[1..], name, v, show)
  }

  function BindRows(children: seq<Spec>, name: string, items: seq<Json>, first: nat,
                    show: Json -> string): (r: seq<Bound>)
    ensures |r| == |items|
    decreases children, 1, |items|
  {
    if items == [] then [] else
      [BoundObject(Sub(name, Decimal(first)), false, items[0] == JNull,
                   BindMembers(children, Sub(name, Decimal(first)), items[0], show))]
      + BindRows(children, name, items[1..], first + 1, show)
  }

  // --------------------------------------------------------------------- submission

  function Join(lines: seq<string>): string {
    if lines == [] then "" else if |lines| == 1 then lines[0] else lines[0] + "\n" + Join(lines[1..])
  }

  function NullToggle(name: string, on: bool): Data {
    if on then map[Sub(name, "null") := "1"] else map[]
  }

  /** What a browser submits for a bound form. */
  function Encode(b: Bound, show: Json -> string): Data {
    match b
    case BoundText(name, nullable, v) =>
      NullToggle(name, nullable && v == JNull)[name := if v == JNull then "" else Show(v, show)]
    case BoundBool(name, v) =>
      map[name := if v == JBool(true) then "true" else if v == JBool(false) then "false" else ""]
    case BoundLines(name, lines) => map[name := Join(lines)]
    case BoundObject(name, nullable, isNull, members) => NullToggle(name, nullable && isNull) + EncodeAll(members, show)
    case BoundRows(_, rows) => EncodeAll(rows, show)
  }

  function EncodeAll(members: seq<Bound>, show: Json -> string): Data {
    if members == [] then map[] else Encode(members[0], show) + EncodeAll(members[1..], show)
  }

  // ------------------------------------------------------------------------ parse

  /** The characters at which `str.splitlines` breaks. */
  predicate IsBreak(c: char) {
    var n := c as int;
    10 <= n <= 13 || 28 <= n <= 30 || n == 0x85 || n == 0x2028 || n == 0x2029
  }

  function LineLength(s: string): (n: nat)
    ensures n <= |s| && forall i | 0 <= i < n :: !IsBreak(s[i])
    ensures n < |s| ==> IsBreak(s[n])
  {
    if s == "" || IsBreak(s[0]) then 0 else 1 + LineLength(s[1..])
  }

  function SplitLines(s: string): seq<string>
    decreases |s|
  {
    var n := LineLength(s);
    if s == "" then [] else if n == |s| then [s] else
      var skip := if s[n] == '\r' && n + 1 < |s| && s[n + 1] == '\n' then 2 else 1;
      [s[..n]] + SplitLines(s[n + skip..])
  }

  /** One item per line, stripped, blank lines ignored. */
  function CleanLines(lines: seq<string>): seq<Json> {
    if lines == [] then [] else
      (if Strip(lines[0]) == "" then [] else [JString(Strip(lines[0]))]) + CleanLines(lines[1..])
  }

  function GetOr(data: Data, name: string): string {
    if name in data then data[name] else ""
  }

  function TextOf(data: Data, name: string): string {
    Strip(GetOr(data, name))
  }

  predicate Toggled(data: Data, name: string) {
    GetOr(data, Sub(name, "null")) != ""
  }

  function Parse(spec: Spec, name: string, data: Data): Json
    decreases spec, 2, 0
  {
    match spec
    case ScalarSpec(_, nullable, _) =>
      if nullable && Toggled(data, name) then JNull
      else if TextOf(data, name) == "" && nullable then JNull
      else JString(TextOf(data, name))
    case BoolSpec(_, nullable) =>
      if nullable && Toggled(data, name) then JNull
      else if TextOf(data, name) == "true" then JBool(true)
      else if TextOf(data, name) == "false" then JBool(false)
      else JNull
    case LinesSpec(_, _) => JList(CleanLines(SplitLines(GetOr(data, name))))
    case ObjectSpec(_, nullable, children) =>
      if nullable && Toggled(data, name) then JNull else JObject(ParseMembers(children, name, data))
    case RowsSpec(_, _, children) =>
      JList(ParseRows(children, name, SortedIndices(name, data), data))
  }

  function ParseMembers(children: seq<Spec>, name: string, data: Data): map<string, Json>
    decreases children, 0, 0
  {
    if children == [] then map[] else
      map[children[0].tag := Parse(children[0], Sub(name, children[0].tag), data)]
      + ParseMembers(children[1..], name, data)
  }

  function ParseRows(children: seq<Spec>, name: string, indices: seq<nat>, data: Data): seq<Json>
    decreases children, 1, |indices|
  {
    if indices == [] then [] else
      var row := ParseMembers(children, Sub(name, Decimal(indices[0])), data);
      (if Blank(children, row) then [] else [JObject(row)]) + ParseRows(children, name, indices[1..], data)
  }

  predicate IsTextInput(spec: Spec) {
    spec.ScalarSpec? && !spec.kind.Select?
  }

  predicate EmptyText(row: map<string, Json>, tag: string) {
    tag in row && (row[tag] == JNull || row[tag] == JString(""))
  }

  /** The blank row the page always offers: it has text inputs and all of them are empty. */
  predicate Blank(children: seq<Spec>, row: map<string, Json>) {
    && (exists c | c in children :: IsTextInput(c))
    && (forall c | c in children && IsTextInput(c) :: EmptyText(row, c.tag))
  }

  // ------------------------------------------------------- what the submitted fields mean

  /** The null box of an input is ticked. */
  predicate Ticked(data: Data, name: string) {
    name + ".null" in data && data[name + ".null"] != ""
  }

  lemma TickedIsToggled(data: Data, name: string)
    ensures Ticked(data, name) <==> Toggled(data, name)
  {
    assert name + ".null" == Sub(name, "null");
  }

  /** A ticked null box means null, whatever else is submitted for the input. */
  lemma TickedMeansNull(spec: Spec, name: string, data: Data)
    requires spec.nullable && (spec.ScalarSpec? || spec.BoolSpec? || spec.ObjectSpec?) && Ticked(data, name)
    ensures Parse(spec, name, data) == JNull
  {
    TickedIsToggled(data, name);
  }

  /** A text that is not ticked null is what is left of the submitted one between white space;
      when nothing is left it is null or empty. */
  lemma TextIsWhatIsLeft(spec: Spec, name: string, data: Data)
    requires spec.ScalarSpec? && !(spec.nullable && Ticked(data, name))
    ensures var raw := if name in data then data[name] else "";
      && (Parse(spec, name, data) == JNull <==> spec.nullable && AllSpace(raw))
      && (!(spec.nullable && AllSpace(raw)) ==>
            Parse(spec, name, data).JString? && LeftOf(raw, Parse(spec, name, data).text))
  {
    TickedIsToggled(data, name);
    StripIsLeft(GetOr(data, name));
    StripEmpty(GetOr(data, name));
    hide Strip, LeftOf, AllSpace;
  }

  /** A choice that is not ticked null is the word left between white space, or no answer. */
  lemma ChoiceIsWhatIsLeft(spec: Spec, name: string, data: Data)
    requires spec.BoolSpec? && !(spec.nullable && Ticked(data, name))
    ensures var raw := if name in data then data[name] else "";
      && (Parse(spec, name, data) == JBool(true) <==> LeftOf(raw, "true"))
      && (Parse(spec, name, data) == JBool(false) <==> LeftOf(raw, "false"))
      && (Parse(spec, name, data) == JNull <==> !LeftOf(raw, "true") && !LeftOf(raw, "false"))
  {
    TickedIsToggled(data, name);
    StripExactly(GetOr(data, name), "true");
    StripExactly(GetOr(data, name), "false");
    hide Strip, LeftOf;
  }

  /** An object that is not ticked null has one member for each child, read under its label. */
  lemma {:induction false} ObjectIsItsMembers(children: seq<Spec>, name: string, data: Data, k: nat)
    requires k < |children| && forall i, j | 0 <= i < j < |children| :: children[i].tag != children[j].tag
    ensures var members := ParseMembers(children, name, data);
      && children[k].tag in members
      && members[children[k].tag] == Parse(children[k], name + "." + children[k].tag, data)
    decreases |children|
  {
    hide Parse;
    var rest := children[1..];
    assert forall i | 0 <= i < |rest| :: rest[i] == children[i + 1];
    if k > 0 {
      ObjectIsItsMembers(rest, name, data, k - 1);
    } else {
      MembersAreTags(rest, name, data);
    }
  }

  lemma {:induction false} MembersAreTags(children: seq<Spec>, name: string, data: Data)
    ensures forall tag | tag in ParseMembers(children, name, data) ::
              exists i :: 0 <= i < |children| && children[i].tag == tag
    decreases |children|
  {
    hide Parse;
    if children != [] {
      MembersAreTags(children[1..], name, data);
      forall tag | tag in ParseMembers(children, name, data)
        ensures exists i :: 0 <= i < |children| && children[i].tag == tag
      {
        if tag == children[0].tag {
          assert children[0].tag == tag;
        } else {
          assert tag in ParseMembers(children[1..], name, data);
          var i :| 0 <= i < |children| - 1 && children[1..][i].tag == tag;
          assert children[i + 1].tag == tag;
        }
      }
    }
  }

  /** A row is dropped exactly when it has text inputs and each of them is ticked null or blank;
      a chosen option does not keep it. */
  lemma RowIsDroppedExactlyWhenBlank(children: seq<Spec>, here: string, data: Data)
    requires forall i, j | 0 <= i < j < |children| :: children[i].tag != children[j].tag
    ensures Blank(children, ParseMembers(children, here, data)) <==>
            && (exists k :: 0 <= k < |children| && IsTyped(children[k]))
            && (forall k | 0 <= k < |children| && IsTyped(children[k]) ::
                  var input := here + "." + children[k].tag;
                  || (children[k].nullable && Ticked(data, input))
                  || AllSpace(if input in data then data[input] else ""))
  {
    var row := ParseMembers(children, here, data);
    forall k | 0 <= k < |children| && IsTyped(children[k])
      ensures var input := here + "." + children[k].tag;
        EmptyText(row, children[k].tag) <==>
        (children[k].nullable && Ticked(data, input)) || AllSpace(if input in data then data[input] else "")
    {
      ObjectIsItsMembers(children, here, data, k);
      TypedIsEmpty(children[k], here + "." + children[k].tag, data);
    }
    hide Parse, ParseMembers, AllSpace, EmptyText;
    assert forall k | 0 <= k < |children| :: IsTyped(children[k]) <==> IsTextInput(children[k]);
    assert forall c | c in children :: exists k :: 0 <= k < |children| && children[k] == c;
  }

  /** One item for each line that is not blank: what is left of it between white space. */
  lemma {:induction false} LinesAreWhatIsLeft(a: seq<string>, b: seq<string>, line: string)
    ensures CleanLines(a + b) == CleanLines(a) + CleanLines(b)
    ensures if AllSpace(line) then CleanLines([line]) == []
            else |CleanLines([line])| == 1 && CleanLines([line])[0].JString? && LeftOf(line, CleanLines([line])[0].text)
  {
    hide Strip, LeftOf, AllSpace;
    StripIsLeft(line);
    StripEmpty(line);
    if a == [] {
      assert a + b == b;
    } else {
      assert (a + b)[0] == a[0] && (a + b)[1..] == a[1..] + b;
      LinesAreWhatIsLeft(a[1..], b, line);
    }
  }

  function WithoutBreaks(s: string): string {
    if s == "" then "" else (if IsBreak(s[0]) then "" else [s[0]]) + WithoutBreaks(s[1..])
  }

  function Concatenated(lines: seq<string>): string {
    if lines == [] then "" else lines[0] + Concatenated(lines[1..])
  }

  lemma {:induction false} BreaksApart(s: string, t: string)
    ensures WithoutBreaks(s + t) == WithoutBreaks(s) + WithoutBreaks(t)
    ensures (forall i | 0 <= i < |s| :: !IsBreak(s[i])) ==> WithoutBreaks(s) == s
  {
    if s == "" {
      assert s + t == t;
    } else {
      assert (s + t)[1..] == s[1..] + t;
      BreaksApart(s[1..], t);
    }
  }

  lemma SplitOnce(s: string) returns (line: string, gap: string, rest: string)
    requires LineLength(s) < |s|
    ensures s == line + (gap + rest) && |rest| < |s| && SplitLines(s) == [line] + SplitLines(rest)
    ensures WithoutBreaks(gap) == "" && forall i | 0 <= i < |line| :: !IsBreak(line[i])
  {
    var n := LineLength(s);
    var skip := if s[n] == '\r' && n + 1 < |s| && s[n + 1] == '\n' then 2 else 1;
    line, gap, rest := s[..n], s[n..n + skip], s[n + skip..];
    GapIsBreaks(gap);
    hide IsBreak, WithoutBreaks, LineLength;
  }

  /** Cutting a text into lines loses nothing but its line breaks, and no line has one. */
  lemma {:induction false} LinesLoseOnlyBreaks(s: string)
    ensures Concatenated(SplitLines(s)) == WithoutBreaks(s)
    ensures forall l | l in SplitLines(s) :: forall i | 0 <= i < |l| :: !IsBreak(l[i])
    decreases |s|
  {
    hide IsBreak, WithoutBreaks;
    if LineLength(s) < |s| {
      var line, gap, rest := SplitOnce(s);
      hide SplitLines;
      LinesLoseOnlyBreaks(rest);
      BreaksApart(line, gap + rest);
      BreaksApart(gap, rest);
      assert ([line] + SplitLines(rest))[1..] == SplitLines(rest);
    } else {
      BreaksApart(s, "");
      assert [s][1..] == [];
    }
  }

  lemma GapIsBreaks(gap: string)
    requires gap == "\r\n" || (|gap| == 1 && IsBreak(gap[0]))
    ensures WithoutBreaks(gap) == ""
  {
    assert gap[1..] == "" || (gap[1..] == "\n" && gap[1..][1..] == "");
  }

  /** A text or text area, not a select. */
  predicate IsTyped(spec: Spec) {
    spec.ScalarSpec? && (spec.kind == Text || spec.kind == TextArea)
  }

  lemma TypedIsEmpty(spec: Spec, name: string, data: Data)
    requires IsTyped(spec)
    ensures var v := Parse(spec, name, data);
      v == JNull || v == JString("") <==>
      (spec.nullable && Ticked(data, name)) || AllSpace(if name in data then data[name] else "")
  {
    if spec.nullable && Ticked(data, name) {
      TickedMeansNull(spec, name, data);
    } else {
      TickedIsToggled(data, name);
      StripEmpty(GetOr(data, name));
      hide Strip, AllSpace;
    }
  }

  /** A stored value of the wrong shape renders as an absent one. */
  lemma WrongShapeIsAbsent(spec: Spec, name: string, v: Json, show: Json -> string)
    ensures (spec.LinesSpec? || spec.RowsSpec?) && !v.JList? ==>
              Bind(spec, name, v, show) == Bind(spec, name, JNull, show)
    ensures spec.ObjectSpec? && !v.JObject? ==>
              Bind(spec, name, JNull, show).BoundObject? &&
              Bind(spec, name, v, show) == Bind(spec, name, JNull, show).(isNull := v == JNull)
  {
    if spec.ObjectSpec? && !v.JObject? {
      AbsentMembers(spec.children, name, v, show);
    }
  }

  lemma {:induction false} AbsentMembers(children: seq<Spec>, name: string, v: Json, show: Json -> string)
    requires !v.JObject?
    ensures BindMembers(children, name, v, show) == BindMembers(children, name, JNull, show)
    decreases |children|
  {
    if children != [] {
      AbsentMembers(children[1..], name, v, show);
    }
  }

  /** The parser as it is written: recursion over the tree, a loop over the rows. */
  method ParseForm(spec: Spec, name: string, data: Data) returns (v: Json)
    ensures v == Parse(spec, name, data)
    ensures spec.nullable && (spec.ScalarSpec? || spec.BoolSpec? || spec.ObjectSpec?) && Ticked(data, name) ==>
              v == JNull
    decreases spec, 2, 0
  {
    hide SortedIndices, Strip;
    if spec.nullable && (spec.ScalarSpec? || spec.BoolSpec? || spec.ObjectSpec?) && Ticked(data, name) {
      TickedMeansNull(spec, name, data);
    }
    match spec
    case ObjectSpec(_, nullable, children) =>
      if nullable && Toggled(data, name) {
        return JNull;
      }
      var members := ParseFormMembers(children, name, data);
      v := JObject(members);
    case RowsSpec(_, _, children) =>
      var rows := ParseFormRows(children, name, SortedIndices(name, data), data);
      v := JList(rows);
    case LinesSpec(_, _) => v := JList(CleanLines(SplitLines(GetOr(data, name))));
    case ScalarSpec(_, nullable, _) =>
      var raw := TextOf(data, name);
      v := if nullable && (Toggled(data, name) || raw == "") then JNull else JString(raw);
    case BoolSpec(_, nullable) =>
      var raw := TextOf(data, name);
      v := if nullable && Toggled(data, name) then JNull
           else if raw == "true" then JBool(true) else if raw == "false" then JBool(false) else JNull;
  }

  method ParseFormMembers(children: seq<Spec>, name: string, data: Data) returns (members: map<string, Json>)
    ensures members == ParseMembers(children, name, data)
    decreases children, 0, 0
  {
    if children == [] {
      return map[];
    }
    var first := ParseForm(children[0], Sub(name, children[0].tag), data);
    var rest := ParseFormMembers(children[1..], name, data);
    members := map[children[0].tag := first] + rest;
  }

  method ParseFormRows(children: seq<Spec>, name: string, indices: seq<nat>, data: Data) returns (rows: seq<Json>)
    ensures rows == ParseRows(children, name, indices, data)
    decreases children, 1, 0
  {
    hide Blank, ParseMembers, ParseRows, Sub;
    rows := [];
    assert indices[0..] == indices;
    for k := 0 to |indices|
      invariant rows + ParseRows(children, name, indices[k..], data) == ParseRows(children, name, indices, data)
    {
      ParseRowsStep(children, name, indices, k, data);
      var row := ParseFormMembers(children, Sub(name, Decimal(indices[k])), data);
      if !Blank(children, row) {
        rows := rows + [JObject(row)];
      }
    }
    NoRowsLeft(children, name, data);
    assert indices[|indices|..] == [];
  }

  lemma ParseRowsStep(children: seq<Spec>, name: string, indices: seq<nat>, k: nat, data: Data)
    requires k < |indices|
    ensures var row := ParseMembers(children, Sub(name, Decimal(indices[k])), data);
      ParseRows(children, name, indices[k..], data)
      == (if Blank(children, row) then [] else [JObject(row)]) + ParseRows(children, name, indices[k + 1..], data)
  {
    assert indices[k..][0] == indices[k] && indices[k..][1..] == indices[k + 1..];
  }

  lemma NoRowsLeft(children: seq<Spec>, name: string, data: Data)
    ensures ParseRows(children, name, [], data) == []
  {
  }
}
