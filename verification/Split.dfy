/** The dev/test split: documents grouped by stratum, dev seats allocated to the strata,
    and the documents of each stratum drawn by a shuffle. */
module Split {
  import opened Common
  import opened Ordering
  import opened Allocation

  const DEV_SIZE := 12
  const TEST_SIZE := 18

  datatype Doc = Doc(id: string, original: bool, profile: string)

  datatype Side = Dev | Test

  type Assignment = map<string, Side>

  /** The seeded generator, stratum by stratum. */
  type Shuffle = (Stratum, seq<string>) -> seq<string>

  ghost predicate Shuffles(shuffle: Shuffle) {
    forall k, s :: multiset(shuffle(k, s)) == multiset(s)
  }

  function KeyOf(d: Doc): Stratum {
    Stratum(d.original, d.profile)
  }

  function Keys(docs: seq<Doc>): set<Stratum> {
    set d | d in docs :: KeyOf(d)
  }

  function Members(docs: seq<Doc>, k: Stratum): seq<string> {
    if docs == [] then []
    else
      var rest := Members(docs[..|docs| - 1], k);
      if KeyOf(docs[|docs| - 1]) == k then rest + [docs[|docs| - 1].id] else rest
  }

  function Ids(docs: seq<Doc>): set<string> {
    set d | d in docs :: d.id
  }

  ghost predicate Distinct(docs: seq<Doc>) {
    forall i, j | 0 <= i < j < |docs| :: docs[i].id != docs[j].id
  }

  ghost function Sizes(docs: seq<Doc>): (m: map<Stratum, nat>)
    ensures m.Keys == Keys(docs)
  {
    map k | k in Keys(docs) :: |Members(docs, k)|
  }

  function OnSide(a: Assignment, side: Side): set<string> {
    set id | id in a && a[id] == side
  }

  // ---------------------------------------------------------------------------- sorting

  function Insert(x: string, s: seq<string>): (r: seq<string>)
    ensures multiset(r) == multiset(s) + multiset{x} && |r| == |s| + 1
  {
    if s == [] || !TextBefore(s[0], x) then [x] + s
    else
      assert s == [s[0]] + s[1..];
      [s[0]] + Insert(x, s[1..])
  }

  /** sorted(s) */
  function SortIds(s: seq<string>): (r: seq<string>)
    ensures multiset(r) == multiset(s) && |r| == |s|
  {
    if s == [] then []
    else
      assert s == s[..|s| - 1] + [s[|s| - 1]];
      Insert(s[|s| - 1], SortIds(s[..|s| - 1]))
  }

  ghost predicate IsSorted(s: seq<string>) {
    forall i, j | 0 <= i < j < |s| :: !TextBefore(s[j], s[i])
  }

  lemma {:induction false} InsertSorts(x: string, s: seq<string>)
    requires IsSorted(s)
    ensures IsSorted(Insert(x, s))
  {
    var r := Insert(x, s);
    if s != [] && TextBefore(s[0], x) {
      InsertSorts(x, s[1..]);
      forall j | 0 < j < |r| ensures !TextBefore(r[j], r[0]) {
        assert r[j] in multiset(Insert(x, s[1..]));
        TextBeforeTotal(s[0], x, s[0]);
        TextBeforeTotal(x, s[0], x);
      }
    } else if s != [] {
      forall j | 0 < j < |r| ensures !TextBefore(r[j], r[0]) {
        TextBeforeTotal(s[0], s[j - 1], x);
        TextBeforeTotal(s[j - 1], x, s[0]);
      }
    }
  }

  lemma {:induction false} SortSorts(s: seq<string>)
    ensures IsSorted(SortIds(s))
  {
    if s != [] {
      SortSorts(s[..|s| - 1]);
      InsertSorts(s[|s| - 1], SortIds(s[..|s| - 1]));
    }
  }

  /** The order in which documents are listed does not matter once they are sorted. */
  lemma {:induction false} SortedUnique(s: seq<string>, t: seq<string>)
    requires multiset(s) == multiset(t) && IsSorted(s) && IsSorted(t)
    ensures s == t
    decreases |s|
  {
    hide IsSorted;
    assert |s| == |multiset(s)| == |multiset(t)| == |t|;
    if s != [] {
      LeastFirst(s, t);
      LeastFirst(t, s);
      TextBeforeTotal(s[0], t[0], s[0]);
      hide TextBefore;
      TailSorted(s);
      TailSorted(t);
      WithoutOne(multiset(s[1..]), multiset(t[1..]), s[0]);
      SortedUnique(s[1..], t[1..]);
    }
  }

  lemma LeastFirst(s: seq<string>, t: seq<string>)
    requires multiset(s) == multiset(t) && IsSorted(t) && s != [] && t != []
    ensures !TextBefore(s[0], t[0])
  {
    assert s[0] in multiset(t);
    TextBeforeTotal(s[0], t[0], s[0]);
    hide TextBefore;
  }

  lemma WithoutOne<T>(a: multiset<T>, b: multiset<T>, x: T)
    requires a + multiset{x} == b + multiset{x}
    ensures a == b
  {
    assert a == a + multiset{x} - multiset{x};
    assert b == b + multiset{x} - multiset{x};
  }

  lemma TailSorted(s: seq<string>)
    requires s != [] && IsSorted(s)
    ensures IsSorted(s[1..]) && multiset(s) == multiset(s[1..]) + multiset{s[0]}
  {
    hide TextBefore;
    assert s == [s[0]] + s[1..];
  }

  // --------------------------------------------------------------------------- grouping

  ghost predicate HasMember(docs: seq<Doc>, k: Stratum, id: string) {
    exists d :: d in docs && d.original == k.original && d.profile == k.profile && d.id == id
  }

  lemma HasMemberNext(docs: seq<Doc>, k: Stratum, id: string)
    requires docs != []
    ensures var init, last := docs[..|docs| - 1], docs[|docs| - 1];
      HasMember(docs, k, id) <==> HasMember(init, k, id) || (KeyOf(last) == k && last.id == id)
  {
    var init, last := docs[..|docs| - 1], docs[|docs| - 1];
    assert docs == init + [last];
  }

  lemma {:induction false} MembersAre(docs: seq<Doc>, k: Stratum)
    ensures forall id :: id in Elements(Members(docs, k)) <==> HasMember(docs, k, id)
  {
    if docs != [] {
      var init, last := docs[..|docs| - 1], docs[|docs| - 1];
      MembersAre(init, k);
      AppendElement(Members(init, k), last.id);
      hide Elements, HasMember;
      forall id ensures id in Elements(Members(docs, k)) <==> HasMember(docs, k, id) {
        HasMemberNext(docs, k, id);
      }
    }
  }

  lemma {:induction false} MembersOfKey(docs: seq<Doc>, k: Stratum)
    ensures k in Keys(docs) <==> Members(docs, k) != []
  {
    if docs != [] {
      MembersOfKey(docs[..|docs| - 1], k);
      assert docs == docs[..|docs| - 1] + [docs[|docs| - 1]];
    }
  }

  lemma {:induction false} MembersDistinct(docs: seq<Doc>, k: Stratum)
    requires Distinct(docs)
    ensures |Elements(Members(docs, k))| == |Members(docs, k)|
  {
    if docs != [] {
      var init, last := docs[..|docs| - 1], docs[|docs| - 1];
      DistinctInit(docs);
      MembersDistinct(init, k);
      MembersAre(init, k);
      AppendElement(Members(init, k), last.id);
      hide Elements;
    }
  }

  lemma AppendElement(s: seq<string>, x: string)
    ensures Elements(s + [x]) == Elements(s) + {x}
  {
  }

  lemma DistinctInit(docs: seq<Doc>)
    requires docs != [] && Distinct(docs)
    ensures var init, last := docs[..|docs| - 1], docs[|docs| - 1];
      Distinct(init) && forall d | d in init :: d.id != last.id
  {
  }

  /** Strata of distinct documents have no document in common. */
  lemma StrataDisjoint(docs: seq<Doc>)
    requires Distinct(docs)
    ensures forall j, k | j != k :: Elements(Members(docs, j)) !! Elements(Members(docs, k))
  {
    forall j, k, id | j != k && id in Elements(Members(docs, j)) ensures id !in Elements(Members(docs, k)) {
      MembersAre(docs, j);
      MembersAre(docs, k);
    }
  }

  lemma {:induction false} IdsCount(docs: seq<Doc>)
    requires Distinct(docs)
    ensures |Ids(docs)| == |docs|
  {
    if docs == [] {
      assert Ids(docs) == {};
    } else {
      var init, last := docs[..|docs| - 1], docs[|docs| - 1];
      IdsCount(init);
      assert docs == init + [last];
      assert Ids(docs) == Ids(init) + {last.id};
      assert last.id !in Ids(init);
    }
  }

  predicate InSome(parts: map<Stratum, set<string>>, id: string) {
    exists k :: k in parts && id in parts[k]
  }

  /** The sizes of disjoint sets add up to the size of their union. */
  lemma {:induction false} PartsAddUp(parts: map<Stratum, set<string>>, m: Counts, whole: set<string>)
    requires m.Keys == parts.Keys && forall k | k in parts :: m[k] == |parts[k]|
    requires forall j, k | j in parts && k in parts && j != k :: parts[j] !! parts[k]
    requires forall id :: id in whole <==> InSome(parts, id)
    ensures Total(m) == |whole|
    decreases |parts|
  {
    if parts == map[] {
      assert whole == {};
    } else {
      var k :| k in parts;
      TotalRemove(m, k);
      WithoutPart(parts, whole, k);
      PartsAddUp(parts - {k}, m - {k}, whole - parts[k]);
    }
  }

  lemma WithoutPart(parts: map<Stratum, set<string>>, whole: set<string>, k: Stratum)
    requires k in parts && forall j | j in parts && j != k :: parts[j] !! parts[k]
    requires forall id :: id in whole <==> InSome(parts, id)
    ensures forall id :: id in whole - parts[k] <==> InSome(parts - {k}, id)
    ensures |whole| == |parts[k]| + |whole - parts[k]|
  {
    forall id ensures id in whole - parts[k] <==> InSome(parts - {k}, id) {
      if id in whole - parts[k] {
        var j :| j in parts && id in parts[j];
        assert j in parts - {k};
      }
    }
    assert forall id | id in parts[k] :: InSome(parts, id);
    assert whole == parts[k] + (whole - parts[k]);
  }

  lemma SizesAddUp(docs: seq<Doc>)
    requires Distinct(docs)
    ensures Total(Sizes(docs)) == |docs|
  {
    var parts := map k | k in Keys(docs) :: Elements(Members(docs, k));
    StrataDisjoint(docs);
    forall k ensures k in Keys(docs) ==> Sizes(docs)[k] == |parts[k]| { MembersDistinct(docs, k); }
    forall id ensures id in Ids(docs) <==> InSome(parts, id) { IdHasStratum(docs, id); }
    PartsAddUp(parts, Sizes(docs), Ids(docs));
    IdsCount(docs);
  }

  lemma IdHasStratum(docs: seq<Doc>, id: string)
    ensures id in Ids(docs) <==> exists k :: k in Keys(docs) && id in Elements(Members(docs, k))
  {
    if d :| d in docs && d.id == id {
      MembersAre(docs, KeyOf(d));
      assert KeyOf(d) in Keys(docs);
    } else {
      forall k ensures id !in Elements(Members(docs, k)) { MembersAre(docs, k); }
    }
  }

  lemma MembersNext(docs: seq<Doc>, i: nat)
    requires i < |docs|
    ensures Keys(docs[..i + 1]) == Keys(docs[..i]) + {KeyOf(docs[i])}
    ensures forall k :: Members(docs[..i + 1], k)
                        == if k == KeyOf(docs[i]) then Members(docs[..i], k) + [docs[i].id] else Members(docs[..i], k)
    ensures KeyOf(docs[i]) !in Keys(docs[..i]) ==> Members(docs[..i], KeyOf(docs[i])) == []
  {
    assert docs[..i + 1] == docs[..i] + [docs[i]];
    assert docs[..i + 1][..i] == docs[..i];
    MembersOfKey(docs[..i], KeyOf(docs[i]));
  }

  method Group(docs: seq<Doc>) returns (strata: map<Stratum, seq<string>>)
    ensures strata == map k | k in Keys(docs) :: Members(docs, k)
  {
    hide Keys, Members;
    strata := map[];
    NoKeys(docs[..0]);
    for i := 0 to |docs|
      invariant strata == map k | k in Keys(docs[..i]) :: Members(docs[..i], k)
    {
      MembersNext(docs, i);
      var key := KeyOf(docs[i]);
      if key !in strata {
        strata := strata[key := []];
      }
      strata := strata[key := strata[key] + [docs[i].id]];
    }
    assert docs[..|docs|] == docs;
  }

  lemma NoKeys(docs: seq<Doc>)
    ensures Keys(docs) == {} <==> docs == []
  {
    if docs != [] {
      assert KeyOf(docs[0]) in Keys(docs);
    }
  }

  // -------------------------------------------------------------------------- assignment

  function WithSide(a: Assignment, ids: set<string>, side: Side): Assignment {
    a + map id | id in ids :: side
  }

  lemma WithSideNext(a: Assignment, ids: seq<string>, i: nat, side: Side)
    requires i < |ids|
    ensures WithSide(a, Elements(ids[..i + 1]), side) == WithSide(a, Elements(ids[..i]), side)[ids[i] := side]
  {
    assert ids[..i + 1] == ids[..i] + [ids[i]];
    ConcatElements(ids[..i], [ids[i]]);
    assert Elements([ids[i]]) == {ids[i]};
  }

  /** for doc_id in ids: assignment[doc_id] = side */
  method Assign(a: Assignment, ids: seq<string>, side: Side) returns (after: Assignment)
    ensures after == WithSide(a, Elements(ids), side)
  {
    after := a;
    assert WithSide(a, Elements(ids[..0]), side) == a;
    hide WithSide, Elements;
    for i := 0 to |ids|
      invariant after == WithSide(a, Elements(ids[..i]), side)
    {
      WithSideNext(a, ids, i, side);
      after := after[ids[i] := side];
    }
    assert ids[..|ids|] == ids;
  }

  /** Two disjoint sets of documents put on their sides. */
  lemma BothSides(a: Assignment, dev: set<string>, test: set<string>)
    ensures var after := WithSide(WithSide(a, dev, Dev), test, Test);
      && after.Keys == a.Keys + dev + test
      && (dev * test == {} ==> OnSide(after, Dev) * (dev + test) == dev)
      && forall id | id in a && id !in dev + test :: after[id] == a[id]
  {
    var after := WithSide(WithSide(a, dev, Dev), test, Test);
    forall id | dev * test == {} ensures id in OnSide(after, Dev) * (dev + test) <==> id in dev {
      assert id !in dev * test;
    }
  }

  /** What a stratum's draw leaves: its documents assigned, and of distinct ones exactly the first
      `count` of the shuffle on the dev side. */
  ghost predicate Drawn(a: Assignment, ids: seq<string>, shuffled: seq<string>, count: int) {
    && Elements(ids) <= a.Keys
    && (|Elements(ids)| == |ids| && 0 <= count <= |ids| ==>
          && count <= |shuffled| && OnSide(a, Dev) * Elements(ids) == Elements(shuffled[..count])
          && |OnSide(a, Dev) * Elements(ids)| == count)
  }

  method Draw(a: Assignment, ids: seq<string>, shuffled: seq<string>, count: int) returns (after: Assignment)
    requires multiset(shuffled) == multiset(ids) && count >= 0
    ensures after.Keys == a.Keys + Elements(ids) && Drawn(after, ids, shuffled, count)
    ensures forall id | id in a && id !in Elements(ids) :: after[id] == a[id]
  {
    hide WithSide, OnSide, Elements, Drawn;
    var cut := if count < |shuffled| then count else |shuffled|;
    after := Assign(a, shuffled[..cut], Dev);
    after := Assign(after, shuffled[cut..], Test);
    DrawIsDrawn(a, ids, shuffled, count, cut);
  }

  lemma DrawIsDrawn(a: Assignment, ids: seq<string>, shuffled: seq<string>, count: nat, cut: nat)
    requires multiset(shuffled) == multiset(ids) && cut == if count < |shuffled| then count else |shuffled|
    ensures var after := WithSide(WithSide(a, Elements(shuffled[..cut]), Dev), Elements(shuffled[cut..]), Test);
      && after.Keys == a.Keys + Elements(ids) && Drawn(after, ids, shuffled, count)
      && forall id | id in a && id !in Elements(ids) :: after[id] == a[id]
  {
    hide WithSide, OnSide, Elements;
    ShuffleSplits(ids, shuffled, cut);
    BothSides(a, Elements(shuffled[..cut]), Elements(shuffled[cut..]));
  }

  /** A shuffle cut in two parts splits the elements. */
  lemma ShuffleSplits(ids: seq<string>, shuffled: seq<string>, cut: nat)
    requires multiset(shuffled) == multiset(ids) && cut <= |shuffled|
    ensures |shuffled| == |ids|
    ensures Elements(shuffled[..cut]) + Elements(shuffled[cut..]) == Elements(ids)
    ensures |Elements(ids)| == |ids| ==>
              Elements(shuffled[..cut]) * Elements(shuffled[cut..]) == {} && |Elements(shuffled[..cut])| == cut
  {
    assert |multiset(shuffled)| == |shuffled|;
    assert forall x :: x in multiset(shuffled) <==> x in Elements(shuffled);
    assert forall x :: x in multiset(ids) <==> x in Elements(ids);
    assert Elements(shuffled) == Elements(ids);
    assert shuffled == shuffled[..cut] + shuffled[cut..];
    ConcatElements(shuffled[..cut], shuffled[cut..]);
    ElementsAtMost(shuffled[..cut]);
    ElementsAtMost(shuffled[cut..]);
    UnionSize(Elements(shuffled[..cut]), Elements(shuffled[cut..]));
  }

  lemma UnionSize<T>(a: set<T>, b: set<T>)
    ensures |a + b| == |a| + |b| - |a * b|
  {
    assert a + b == a + (b - a);
    assert b == (a * b) + (b - a);
  }

  /** The shuffle of a stratum's documents in their sorted order. */
  function ShuffleOf(docs: seq<Doc>, k: Stratum, shuffle: Shuffle): seq<string> {
    shuffle(k, SortIds(Members(docs, k)))
  }

  ghost predicate DrawnUpTo(docs: seq<Doc>, shuffle: Shuffle, a: Assignment, seats: Counts, done: set<Stratum>)
    requires done <= seats.Keys
  {
    && (forall id :: id in a <==> exists k :: k in done && id in Elements(Members(docs, k)))
    && (Distinct(docs) ==> forall k | k in done :: Drawn(a, Members(docs, k), ShuffleOf(docs, k, shuffle), seats[k]))
  }

  /** A stratum's dev documents are the first of its shuffle, as many as it has seats. */
  ghost predicate DrawnFirst(docs: seq<Doc>, shuffle: Shuffle, a: Assignment, seats: Counts, k: Stratum) {
    && k in seats && 0 <= seats[k] <= |ShuffleOf(docs, k, shuffle)|
    && OnSide(a, Dev) * Elements(Members(docs, k)) == Elements(ShuffleOf(docs, k, shuffle)[..seats[k]])
    && |OnSide(a, Dev) * Elements(Members(docs, k))| == seats[k]
  }

  lemma ShuffledMembers(docs: seq<Doc>, shuffle: Shuffle, k: Stratum)
    requires Shuffles(shuffle)
    ensures ShuffleOf(docs, k, shuffle) == shuffle(k, SortIds(Members(docs, k)))
    ensures multiset(ShuffleOf(docs, k, shuffle)) == multiset(Members(docs, k))
  {
    hide SortIds, Members;
  }

  /** Listing the same documents in another order changes no stratum, no shuffle and so no draw. */
  lemma ListingOrderIsInvisible(docs: seq<Doc>, other: seq<Doc>, k: Stratum, shuffle: Shuffle)
    requires multiset(docs) == multiset(other)
    ensures multiset(Members(docs, k)) == multiset(Members(other, k))
    ensures ShuffleOf(docs, k, shuffle) == ShuffleOf(other, k, shuffle)
  {
    MembersPermute(docs, other, k);
    SortSorts(Members(docs, k));
    SortSorts(Members(other, k));
    SortedUnique(SortIds(Members(docs, k)), SortIds(Members(other, k)));
  }

  lemma {:induction false} MembersPermute(docs: seq<Doc>, other: seq<Doc>, k: Stratum)
    requires multiset(docs) == multiset(other)
    ensures multiset(Members(docs, k)) == multiset(Members(other, k))
    decreases |docs|
  {
    hide Members;
    assert |docs| == |multiset(docs)| == |multiset(other)| == |other|;
    if docs != [] {
      var init, last := docs[..|docs| - 1], docs[|docs| - 1];
      assert docs == init + [last] && multiset(docs) == multiset(init) + multiset{last};
      var front, back := Around(other, last);
      WithoutOne(multiset(front + back), multiset(init), last);
      MembersPermute(init, front + back, k);
      MembersJoin(init, [last], k);
      MembersJoin(front, back, k);
      MembersJoin(front + [last], back, k);
      MembersJoin(front, [last], k);
    }
  }

  lemma Around(docs: seq<Doc>, d: Doc) returns (front: seq<Doc>, back: seq<Doc>)
    requires d in multiset(docs)
    ensures docs == front + [d] + back && multiset(docs) == multiset(front + back) + multiset{d}
  {
    var i :| 0 <= i < |docs| && docs[i] == d;
    front, back := docs[..i], docs[i + 1..];
    assert docs == front + [d] + back;
  }

  lemma {:induction false} MembersJoin(a: seq<Doc>, b: seq<Doc>, k: Stratum)
    ensures Members(a + b, k) == Members(a, k) + Members(b, k)
  {
    if b == [] {
      assert a + b == a;
    } else {
      assert (a + b)[..|a + b| - 1] == a + b[..|b| - 1];
      MembersJoin(a, b[..|b| - 1], k);
    }
  }

  /** Drawing one stratum leaves the others as they were. */
  lemma DrawnKeeps(docs: seq<Doc>, shuffle: Shuffle, a: Assignment, after: Assignment, seats: Counts,
                   done: set<Stratum>, k: Stratum)
    requires done <= seats.Keys && k in seats && k !in done && DrawnUpTo(docs, shuffle, a, seats, done)
    requires after.Keys == a.Keys + Elements(Members(docs, k))
    requires Drawn(after, Members(docs, k), ShuffleOf(docs, k, shuffle), seats[k])
    requires forall id | id in a && id !in Elements(Members(docs, k)) :: after[id] == a[id]
    ensures DrawnUpTo(docs, shuffle, after, seats, done + {k})
  {
    hide Members, Elements, ShuffleOf, Drawn, OnSide, Distinct;
    if Distinct(docs) {
      StrataDisjoint(docs);
      forall j | j in done ensures Drawn(after, Members(docs, j), ShuffleOf(docs, j, shuffle), seats[j]) {
        SameDraw(a, after, Members(docs, j), ShuffleOf(docs, j, shuffle), seats[j]);
      }
    }
  }

  lemma SameDraw(a: Assignment, after: Assignment, ids: seq<string>, shuffled: seq<string>, count: int)
    requires Drawn(a, ids, shuffled, count) && a.Keys <= after.Keys
    requires forall id | id in Elements(ids) && id in a :: after[id] == a[id]
    ensures Drawn(after, ids, shuffled, count)
  {
    hide Elements;
    assert OnSide(after, Dev) * Elements(ids) == OnSide(a, Dev) * Elements(ids);
  }

  /** sorted(strata) */
  const InKeyOrder: (Stratum, Stratum) -> bool := (a, b) => KeyBefore(a, b)

  method BuildSplit(docs: seq<Doc>, shuffle: Shuffle)
    returns (r: Result<Assignment, SplitError>, ghost seats: Counts, ghost extra: set<Stratum>)
    requires Shuffles(shuffle)
    ensures r.Err? ==> r.error == WrongSizes
    ensures r.Ok? ==> r.value.Keys == Ids(docs)
    ensures r.Ok? ==> |OnSide(r.value, Dev)| == DEV_SIZE && |OnSide(r.value, Test)| == TEST_SIZE
    ensures Distinct(docs) ==> (r.Ok? <==> |docs| == DEV_SIZE + TEST_SIZE)
    ensures Distinct(docs) && r.Ok? ==>
      && Total(Sizes(docs)) > 0 && Allocated(Sizes(docs), DEV_SIZE, seats, extra)
      && forall k | k in Keys(docs) :: DrawnFirst(docs, shuffle, r.value, seats, k)
  {
    hide DrawnFirst, ShuffleOf, SortIds, Keys, Members, Elements, OnSide, Ids,
         Distinct, Total, Allocated, KeyBefore, Ranking, StrictTotal, Ascending, DrawnUpTo, Drawn;
    var strata := Group(docs);
    var sizes := map k | k in strata :: |strata[k]|;
    assert sizes == Sizes(docs);
    SizesPositive(docs);
    var allocation, winners := LargestRemainder(sizes, DEV_SIZE);
    var counts := allocation.value;
    seats, extra := counts, winners;
    SeatsAreNat(sizes, DEV_SIZE, counts, winners);
    var assignment: Assignment := map[];
    InKeyOrderTotal(strata.Keys);
    var keys := Ranking(InKeyOrder, strata.Keys);
    NothingDrawn(docs, shuffle, counts, keys);
    for i := 0 to |keys|
      invariant Elements(keys[..i]) <= counts.Keys
      invariant DrawnUpTo(docs, shuffle, assignment, counts, Elements(keys[..i]))
    {
      NextKey(keys, i);
      var ids := strata[keys[i]];
      var sorted := SortIds(ids);
      ShuffledMembers(docs, shuffle, keys[i]);
      var after := Draw(assignment, ids, shuffle(keys[i], sorted), counts[keys[i]]);
      DrawnKeeps(docs, shuffle, assignment, after, counts, Elements(keys[..i]), keys[i]);
      assignment := after;
    }
    assert keys[..|keys|] == keys;
    NoKeys(docs);
    assert docs != [] ==> sizes.Keys != {};
    AllDrawn(docs, shuffle, assignment, counts, winners);
    var dev, test := |OnSide(assignment, Dev)|, |OnSide(assignment, Test)|;
    if dev != DEV_SIZE || test != TEST_SIZE {
      return Err(WrongSizes), seats, extra;
    }
    r := Ok(assignment);
  }

  lemma SeatsAreNat(sizes: map<Stratum, nat>, seats: nat, got: Counts, extra: set<Stratum>)
    requires sizes == map[] ==> got == map[]
    requires sizes != map[] ==> Total(sizes) > 0 && Allocated(sizes, seats, got, extra)
    ensures got.Keys == sizes.Keys && forall k | k in got :: got[k] >= 0
  {
    hide Total, ByFraction;
  }

  lemma InKeyOrderTotal(s: set<Stratum>)
    ensures StrictTotal(InKeyOrder, s)
  {
    hide KeyBefore;
    KeyBeforeTotal();
  }

  lemma NothingDrawn(docs: seq<Doc>, shuffle: Shuffle, counts: Counts, keys: seq<Stratum>)
    requires Elements(keys) <= counts.Keys
    ensures Elements(keys[..0]) <= counts.Keys && DrawnUpTo(docs, shuffle, map[], counts, Elements(keys[..0]))
  {
    hide Members;
    NoElements(keys[..0]);
  }

  lemma NextKey(keys: seq<Stratum>, i: nat)
    requires |Elements(keys)| == |keys| && i < |keys|
    ensures keys[i] in Elements(keys) && keys[i] !in Elements(keys[..i])
    ensures Elements(keys[..i + 1]) == Elements(keys[..i]) + {keys[i]} && Elements(keys[..i]) <= Elements(keys)
  {
    NoRepeats(keys);
    SplitLast(keys[..i + 1]);
    assert keys[..i + 1][..i] == keys[..i];
    assert keys[i] in Elements(keys);
  }

  /** Every stratum drawn: every document is assigned, and with distinct documents the dev
      documents add up to the seats. */
  lemma AllDrawn(docs: seq<Doc>, shuffle: Shuffle, a: Assignment, seats: Counts, extra: set<Stratum>)
    requires seats.Keys == Keys(docs) && DrawnUpTo(docs, shuffle, a, seats, Keys(docs))
    requires forall k | k in seats :: seats[k] >= 0
    requires docs != [] ==> Total(Sizes(docs)) > 0 && Allocated(Sizes(docs), DEV_SIZE, seats, extra)
    ensures a.Keys == Ids(docs)
    ensures Distinct(docs) ==> |OnSide(a, Dev)| + |OnSide(a, Test)| == |docs|
    ensures Distinct(docs) && |docs| >= DEV_SIZE ==>
      && |OnSide(a, Dev)| == DEV_SIZE
      && forall k | k in Keys(docs) :: DrawnFirst(docs, shuffle, a, seats, k)
  {
    hide Keys, Members, Allocated, Distinct, Total, Sizes, Elements;
    forall id ensures id in a <==> id in Ids(docs) { IdHasStratum(docs, id); }
    hide Ids;
    if Distinct(docs) {
      IdsCount(docs);
      SidesCount(a);
      if |docs| >= DEV_SIZE {
        DevAddsUp(docs, shuffle, a, seats, extra);
      }
    }
  }

  lemma SidesCount(a: Assignment)
    ensures |OnSide(a, Dev)| + |OnSide(a, Test)| == |a.Keys|
  {
    assert OnSide(a, Dev) + OnSide(a, Test) == a.Keys;
  }

  lemma DevAddsUp(docs: seq<Doc>, shuffle: Shuffle, a: Assignment, seats: Counts, extra: set<Stratum>)
    requires Distinct(docs) && |docs| >= DEV_SIZE
    requires seats.Keys == Keys(docs) && DrawnUpTo(docs, shuffle, a, seats, Keys(docs))
    requires Total(Sizes(docs)) > 0 && Allocated(Sizes(docs), DEV_SIZE, seats, extra)
    ensures |OnSide(a, Dev)| == DEV_SIZE
    ensures forall k | k in Keys(docs) :: DrawnFirst(docs, shuffle, a, seats, k)
  {
    hide Keys, Members, Allocated, Distinct, Total, Elements, Sizes, DrawnUpTo, OnSide;
    SizesAddUp(docs);
    SeatsWithinSizes(Sizes(docs), DEV_SIZE, seats, extra);
    SeatsAddUp(Sizes(docs), DEV_SIZE, seats, extra);
    DevParts(docs, shuffle, a, seats);
  }

  lemma DevParts(docs: seq<Doc>, shuffle: Shuffle, a: Assignment, seats: Counts)
    requires Distinct(docs) && seats.Keys == Keys(docs) && DrawnUpTo(docs, shuffle, a, seats, Keys(docs))
    requires forall k | k in seats :: 0 <= seats[k] <= Sizes(docs)[k]
    ensures forall k | k in Keys(docs) :: DrawnFirst(docs, shuffle, a, seats, k)
    ensures Total(seats) == |OnSide(a, Dev)|
  {
    hide Keys, Members, Distinct, Total, Elements;
    forall k | k in Keys(docs) ensures DrawnFirst(docs, shuffle, a, seats, k) {
      MembersDistinct(docs, k);
    }
    StrataDisjoint(docs);
    var parts := map k | k in Keys(docs) :: OnSide(a, Dev) * Elements(Members(docs, k));
    forall id ensures id in OnSide(a, Dev) <==> InSome(parts, id) {
      if id in OnSide(a, Dev) {
        var k :| k in Keys(docs) && id in Elements(Members(docs, k));
        assert id in parts[k];
      }
    }
    hide Sizes, DrawnUpTo, OnSide, InSome;
    PartsAddUp(parts, seats, OnSide(a, Dev));
  }

  lemma SizesPositive(docs: seq<Doc>)
    ensures Sizes(docs) != map[] ==> Total(Sizes(docs)) > 0
  {
    if k :| k in Sizes(docs) {
      MembersOfKey(docs, k);
      TotalRemove(Sizes(docs), k);
      TotalIsNat(Sizes(docs) - {k});
    }
  }
}
