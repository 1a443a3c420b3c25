/** Manifests: dependency maps rebuilt from the entries, edge extraction, and reconstruction. */
module Manifest {
  import opened Common

  datatype Json =
    | Null
    | Text(text: string)
    | Array(items: seq<Json>)
    | Object(fields: map<string, Json>)
    | Other(id: int)

  function Get(v: Json, key: string): Option<Json> {
    if v.Object? && key in v.fields then Some(v.fields[key]) else None
  }

  /** The entries of a section; a section that is missing or no object has none. */
  function Section(raw: Json, name: string): map<string, Json> {
    match Get(raw, name)
    case Some(Object(fields)) => fields
    case _ => map[]
  }

  /** The strings among some values, in order. */
  function Strings(items: seq<Json>): seq<string> {
    if items == [] then []
    else
      var front := Strings(items[..|items| - 1]);
      match items[|items| - 1]
      case Text(s) => front + [s]
      case _ => front
  }

  function ArrayStrings(v: Option<Json>): seq<string> {
    match v
    case Some(Array(items)) => Strings(items)
    case _ => []
  }

  /** `depends_on.nodes` of an entry. */
  function Parents(entry: Json): seq<string> {
    match Get(entry, "depends_on")
    case Some(dependsOn) => ArrayStrings(Get(dependsOn, "nodes"))
    case None => []
  }

  const SECTIONS := ["nodes", "sources", "exposures", "metrics", "semantic_models", "saved_queries", "unit_tests"]

  type Lists = map<string, seq<string>>

  function At(m: Lists, key: string): seq<string> {
    if key in m then m[key] else []
  }

  function Count(s: seq<string>, x: string): nat {
    multiset(s)[x]
  }

  // ---------------------------------------------------------------------------------------------
  // The two maps as functions of the entries in the order they are visited

  datatype Entry = Entry(id: string, parents: seq<string>)

  ghost function Ordered(s: set<string>): (r: seq<string>)
    ensures StrictlySorted(r) && forall x :: x in r <==> x in s
  {
    if s == {} then []
    else
      var x :| x in s;
      InsertSorted(Ordered(s - {x}), x)
  }

  function EntriesOf(fields: map<string, Json>, ids: seq<string>): (r: seq<Entry>)
    requires forall i :: 0 <= i < |ids| ==> ids[i] in fields
    ensures |r| == |ids| && forall i :: 0 <= i < |ids| ==> r[i] == Entry(ids[i], Parents(fields[ids[i]]))
  {
    seq(|ids|, i requires 0 <= i < |ids| => Entry(ids[i], Parents(fields[ids[i]])))
  }

  ghost function SectionEntries(fields: map<string, Json>): seq<Entry> {
    var ids := Ordered(fields.Keys);
    assert forall i :: 0 <= i < |ids| ==> ids[i] in ids;
    EntriesOf(fields, ids)
  }

  type Fields = map<string, Json>

  /** The sections that declare dependencies, in the order they are visited. */
  function Sections(raw: Json): (r: seq<Fields>)
    ensures |r| == |SECTIONS|
  {
    seq(|SECTIONS|, i requires 0 <= i < |SECTIONS| => Section(raw, SECTIONS[i]))
  }

  /** The entries of the first `n` sections. */
  ghost function Entries(sections: seq<Fields>, n: nat): seq<Entry>
    requires n <= |sections|
  {
    if n == 0 then [] else Entries(sections, n - 1) + SectionEntries(sections[n - 1])
  }

  ghost function AllEntries(raw: Json): seq<Entry> {
    Entries(Sections(raw), |Sections(raw)|)
  }

  function ParentMap(entries: seq<Entry>): Lists {
    if entries == [] then map[]
    else
      var last := entries[|entries| - 1];
      ParentMap(entries[..|entries| - 1])[last.id := last.parents]
  }

  function PushAll(m: Lists, parents: seq<string>, child: string): Lists {
    if parents == [] then m
    else
      var k := |parents| - 1;
      var front := PushAll(m, parents[..k], child);
      front[parents[k] := At(front, parents[k]) + [child]]
  }

  function Visit(m: Lists, entry: Entry): Lists {
    PushAll(m[entry.id := At(m, entry.id)], entry.parents, entry.id)
  }

  function ChildMap(entries: seq<Entry>): Lists {
    if entries == [] then map[] else Visit(ChildMap(entries[..|entries| - 1]), entries[|entries| - 1])
  }

  lemma FoldsExtend(entries: seq<Entry>, entry: Entry)
    ensures ParentMap(entries + [entry]) == ParentMap(entries)[entry.id := entry.parents]
    ensures ChildMap(entries + [entry]) == Visit(ChildMap(entries), entry)
  {
    assert (entries + [entry])[..|entries|] == entries;
  }

  ghost predicate Built(entries: seq<Entry>, parentMap: Lists, childMap: Lists) {
    parentMap == ParentMap(entries) && childMap == ChildMap(entries)
  }

  lemma TakeNone<T>(seen: seq<T>, s: seq<T>)
    ensures seen + s[..0] == seen
  {
  }

  lemma TakeOneMore<T>(seen: seq<T>, s: seq<T>, i: nat)
    requires i < |s|
    ensures seen + s[..i] + [s[i]] == seen + s[..i + 1]
  {
  }

  lemma TakeAll<T>(seen: seq<T>, s: seq<T>)
    ensures seen + s[..|s|] == seen + s
  {
  }

  lemma PushOneMore(m: Lists, parents: seq<string>, i: nat, child: string)
    requires i < |parents|
    ensures var before := PushAll(m, parents[..i], child);
      PushAll(m, parents[..i + 1], child) == before[parents[i] := At(before, parents[i]) + [child]]
  {
    assert parents[..i + 1][..i] == parents[..i];
  }

  /** Visits one entry: records its parents, and pushes it to the list of each of them. */
  method VisitEntry(ghost seen: seq<Entry>, entry: Entry, parents: Lists, children: Lists)
    returns (parentMap: Lists, childMap: Lists)
    requires Built(seen, parents, children)
    ensures Built(seen + [entry], parentMap, childMap)
  {
    FoldsExtend(seen, entry);
    parentMap := parents[entry.id := entry.parents];
    childMap := if entry.id in children then children else children[entry.id := []];
    ghost var touched := childMap;
    assert touched == children[entry.id := At(children, entry.id)];
    for i := 0 to |entry.parents|
      invariant childMap == PushAll(touched, entry.parents[..i], entry.id)
    {
      var parent := entry.parents[i];
      PushOneMore(touched, entry.parents, i, entry.id);
      childMap := childMap[parent := At(childMap, parent) + [entry.id]];
    }
    assert entry.parents[..|entry.parents|] == entry.parents;
  }

  lemma {:induction false} SortedUnique(a: seq<string>, b: seq<string>)
    requires StrictlySorted(a) && StrictlySorted(b) && forall x :: x in a <==> x in b
    ensures a == b
  {
    forall i | 0 <= i < |b| ensures b[i] in a { assert b[i] in b; }
    forall i | 0 <= i < |a| ensures a[i] in b { assert a[i] in a; }
    assert b == [] || b[0] in a;
    if a != [] {
      assert a[0] in b;
      SortedTail(a);
      SortedTail(b);
      StrLessTotal(a[0], b[0]);
      SortedUnique(a[1..], b[1..]);
      assert a == [a[0]] + a[1..] && b == [b[0]] + b[1..];
    }
  }

  lemma SortedTail(s: seq<string>)
    requires StrictlySorted(s) && s != []
    ensures StrictlySorted(s[1..])
    ensures forall x :: x in s[1..] <==> x in s && x != s[0]
    ensures forall x :: x in s ==> x == s[0] || StrLess(s[0], x)
  {
    assert s == [s[0]] + s[1..];
    forall x | x in s[1..] ensures x != s[0] { StrLessTotal(s[0], x); }
  }

  method VisitIds(ghost seen: seq<Entry>, fields: map<string, Json>, ids: seq<string>, parents: Lists, children: Lists)
    returns (parentMap: Lists, childMap: Lists)
    requires forall i :: 0 <= i < |ids| ==> ids[i] in fields
    requires Built(seen, parents, children)
    ensures Built(seen + EntriesOf(fields, ids), parentMap, childMap)
  {
    parentMap, childMap := parents, children;
    ghost var entries := EntriesOf(fields, ids);
    TakeNone(seen, entries);
    for i := 0 to |ids|
      invariant Built(seen + entries[..i], parentMap, childMap)
    {
      var entry := Entry(ids[i], Parents(fields[ids[i]]));
      parentMap, childMap := VisitEntry(seen + entries[..i], entry, parentMap, childMap);
      TakeOneMore(seen, entries, i);
    }
    TakeAll(seen, entries);
  }

  method VisitSection(ghost seen: seq<Entry>, fields: map<string, Json>, parents: Lists, children: Lists)
    returns (parentMap: Lists, childMap: Lists)
    requires Built(seen, parents, children)
    ensures Built(seen + SectionEntries(fields), parentMap, childMap)
  {
    var ids := SortedElements(fields.Keys);
    SortedUnique(ids, Ordered(fields.Keys));
    forall i | 0 <= i < |ids| ensures ids[i] in fields { assert ids[i] in ids; }
    parentMap, childMap := VisitIds(seen, fields, ids, parents, children);
  }

  method RebuildDependencyMaps(raw: Json) returns (parentMap: Lists, childMap: Lists)
    ensures Built(AllEntries(raw), parentMap, childMap)
  {
    parentMap, childMap := map[], map[];
    var sections := Sections(raw);
    for n := 0 to |sections|
      invariant Built(Entries(sections, n), parentMap, childMap)
    {
      parentMap, childMap := VisitSection(Entries(sections, n), sections[n], parentMap, childMap);
    }
  }

  // ---------------------------------------------------------------------------------------------
  // What the maps say

  /** How often the entries of a sequence that carry id `c` list `p` as a parent. */
  function Mentions(entries: seq<Entry>, p: string, c: string): nat {
    if entries == [] then 0
    else
      var last := entries[|entries| - 1];
      Mentions(entries[..|entries| - 1], p, c) + (if last.id == c then Count(last.parents, p) else 0)
  }

  lemma {:induction false} PushAllCount(m: Lists, parents: seq<string>, child: string, p: string, c: string)
    ensures Count(At(PushAll(m, parents, child), p), c) ==
      Count(At(m, p), c) + if c == child then Count(parents, p) else 0
  {
    if parents != [] {
      var k := |parents| - 1;
      PushAllCount(m, parents[..k], child, p, c);
      assert parents == parents[..k] + [parents[k]];
    }
  }

  /** Every child list counts exactly the mentions. */
  lemma {:induction false} ChildMapCounts(entries: seq<Entry>, p: string, c: string)
    ensures Count(At(ChildMap(entries), p), c) == Mentions(entries, p, c)
  {
    if entries != [] {
      var k := |entries| - 1;
      var front := ChildMap(entries[..k]);
      ChildMapCounts(entries[..k], p, c);
      PushAllCount(front[entries[k].id := At(front, entries[k].id)], entries[k].parents, entries[k].id, p, c);
    }
  }

  lemma {:induction false} MentionsOfConcat(a: seq<Entry>, b: seq<Entry>, p: string, c: string)
    ensures Mentions(a + b, p, c) == Mentions(a, p, c) + Mentions(b, p, c)
  {
    if b == [] {
      assert a + b == a;
    } else {
      assert (a + b)[..|a + b| - 1] == a + b[..|b| - 1];
      MentionsOfConcat(a, b[..|b| - 1], p, c);
    }
  }

  lemma {:induction false} ParentMapOfConcat(a: seq<Entry>, b: seq<Entry>)
    ensures ParentMap(a + b) == ParentMap(a) + ParentMap(b)
  {
    if b == [] {
      assert a + b == a;
    } else {
      assert (a + b)[..|a + b| - 1] == a + b[..|b| - 1];
      ParentMapOfConcat(a, b[..|b| - 1]);
    }
  }

  ghost predicate DistinctStrings(s: seq<string>) {
    forall i, j :: 0 <= i < j < |s| ==> s[i] != s[j]
  }

  /** Within one section ids are distinct: the parent map lists each entry's parents, and mentions are those. */
  lemma {:induction false} EntriesOfDistinct(fields: map<string, Json>, ids: seq<string>, p: string, c: string)
    requires DistinctStrings(ids) && forall i :: 0 <= i < |ids| ==> ids[i] in fields
    ensures c in ParentMap(EntriesOf(fields, ids)) <==> c in ids
    ensures c in ids ==> ParentMap(EntriesOf(fields, ids))[c] == Parents(fields[c])
    ensures Mentions(EntriesOf(fields, ids), p, c) == if c in ids then Count(Parents(fields[c]), p) else 0
  {
    if ids != [] {
      var k := |ids| - 1;
      EntriesOfDistinct(fields, ids[..k], p, c);
      assert EntriesOf(fields, ids)[..k] == EntriesOf(fields, ids[..k]);
      assert ids == ids[..k] + [ids[k]];
    }
  }

  lemma OrderedDistinct(s: set<string>)
    ensures DistinctStrings(Ordered(s))
  {
    var r := Ordered(s);
    forall i, j | 0 <= i < j < |r| ensures r[i] != r[j] { StrLessTotal(r[i], r[j]); }
  }

  lemma SectionMeaning(fields: map<string, Json>, p: string, c: string)
    ensures c in ParentMap(SectionEntries(fields)) <==> c in fields
    ensures c in fields ==> ParentMap(SectionEntries(fields))[c] == Parents(fields[c])
    ensures Mentions(SectionEntries(fields), p, c) == if c in fields then Count(Parents(fields[c]), p) else 0
  {
    var ids := Ordered(fields.Keys);
    OrderedDistinct(fields.Keys);
    forall i | 0 <= i < |ids| ensures ids[i] in fields { assert ids[i] in ids; }
    EntriesOfDistinct(fields, ids, p, c);
    assert c in ids <==> c in fields;
  }

  /** What each section lists as the parents of `c`, where it has an entry for it. */
  function Column(sections: seq<Fields>, c: string): (r: seq<Option<seq<string>>>)
    ensures |r| == |sections|
  {
    seq(|sections|, i requires 0 <= i < |sections| => if c in sections[i] then Some(Parents(sections[i][c])) else None)
  }

  function Total(column: seq<Option<seq<string>>>, p: string): nat {
    if column == [] then 0
    else
      var last := column[|column| - 1];
      Total(column[..|column| - 1], p) + if last.Some? then Count(last.value, p) else 0
  }

  function Last(column: seq<Option<seq<string>>>): seq<string> {
    if column == [] then []
    else
      var last := column[|column| - 1];
      if last.Some? then last.value else Last(column[..|column| - 1])
  }

  /** Every section that has an entry for the id, except the last such section, lists no parent for it. */
  ghost predicate OnlyLastLists(column: seq<Option<seq<string>>>) {
    forall i, j :: 0 <= i < j < |column| && column[i].Some? && column[j].Some? ==> column[i].value == []
  }

  lemma {:induction false} TotalCovers(column: seq<Option<seq<string>>>, i: nat, p: string)
    requires i < |column| && column[i].Some?
    ensures Count(column[i].value, p) <= Total(column, p)
  {
    if i < |column| - 1 { TotalCovers(column[..|column| - 1], i, p); }
  }

  lemma {:induction false} NothingListed(column: seq<Option<seq<string>>>, p: string)
    requires forall i :: 0 <= i < |column| && column[i].Some? ==> column[i].value == []
    ensures Total(column, p) == 0
  {
    if column != [] { NothingListed(column[..|column| - 1], p); }
  }

  lemma {:induction false} OnlyLastAgrees(column: seq<Option<seq<string>>>, p: string)
    requires OnlyLastLists(column)
    ensures Total(column, p) == Count(Last(column), p)
  {
    if column != [] {
      var k := |column| - 1;
      if column[k].Some? {
        forall i | 0 <= i < k && column[i].Some? ensures column[i].value == [] { }
        NothingListed(column[..k], p);
      } else {
        OnlyLastAgrees(column[..k], p);
      }
    }
  }

  lemma {:induction false} AgreesOnlyLast(column: seq<Option<seq<string>>>)
    requires forall p :: Total(column, p) == Count(Last(column), p)
    ensures OnlyLastLists(column)
  {
    if column != [] {
      var k := |column| - 1;
      if column[k].Some? {
        forall i | 0 <= i < k && column[i].Some? ensures column[i].value == [] {
          var listed := column[i].value;
          if listed != [] {
            assert listed[0] in multiset(listed);
            assert Total(column, listed[0]) == Count(Last(column), listed[0]);
            TotalCovers(column[..k], i, listed[0]);
          }
        }
      } else {
        forall p ensures Total(column[..k], p) == Count(Last(column[..k]), p) {
          assert Total(column, p) == Count(Last(column), p);
        }
        AgreesOnlyLast(column[..k]);
      }
    }
  }

  /** One more section adds its mentions, and overrides the parents of its own ids. */
  lemma OneMoreSection(sections: seq<Fields>, n: nat, p: string, c: string)
    requires n < |sections|
    ensures var here := Column(sections, c)[n];
      && Mentions(Entries(sections, n + 1), p, c) ==
        Mentions(Entries(sections, n), p, c) + (if here.Some? then Count(here.value, p) else 0)
      && At(ParentMap(Entries(sections, n + 1)), c) ==
        (if here.Some? then here.value else At(ParentMap(Entries(sections, n)), c))
  {
    SectionMeaning(sections[n], p, c);
    MentionsOfConcat(Entries(sections, n), SectionEntries(sections[n]), p, c);
    ParentMapOfConcat(Entries(sections, n), SectionEntries(sections[n]));
  }

  /** Numbers and lists that follow the column entry by entry end in its total and its last list. */
  lemma {:induction false} FollowsColumn(
      column: seq<Option<seq<string>>>, totals: seq<nat>, lasts: seq<seq<string>>, p: string)
    requires |totals| == |lasts| == |column| + 1
    requires totals[0] == 0 && lasts[0] == []
    requires forall i :: 0 <= i < |column| ==>
      totals[i + 1] == totals[i] + (if column[i].Some? then Count(column[i].value, p) else 0)
    requires forall i :: 0 <= i < |column| ==>
      lasts[i + 1] == if column[i].Some? then column[i].value else lasts[i]
    ensures totals[|column|] == Total(column, p) && lasts[|column|] == Last(column)
  {
    if column != [] {
      var k := |column| - 1;
      FollowsColumn(column[..k], totals[..k + 1], lasts[..k + 1], p);
    }
  }

  /** The mentions of an id add up over the sections; its parents are those of the last section that has it. */
  lemma EntriesMeaning(sections: seq<Fields>, p: string, c: string)
    ensures Mentions(Entries(sections, |sections|), p, c) == Total(Column(sections, c), p)
    ensures At(ParentMap(Entries(sections, |sections|)), c) == Last(Column(sections, c))
  {
    var totals := seq(|sections| + 1, n requires 0 <= n <= |sections| => Mentions(Entries(sections, n), p, c));
    var lasts := seq(|sections| + 1, n requires 0 <= n <= |sections| => At(ParentMap(Entries(sections, n)), c));
    forall n | 0 <= n < |sections| {
      OneMoreSection(sections, n, p, c);
    }
    FollowsColumn(Column(sections, c), totals, lasts, p);
  }

  /** Child `c` is in the list of parent `p` as often as `p` is in the list of `c`. */
  ghost predicate Transposed(parentMap: Lists, childMap: Lists) {
    forall p, c :: Count(At(childMap, p), c) == Count(At(parentMap, c), p)
  }

  lemma MapsMeaning(raw: Json, p: string, c: string)
    ensures Count(At(ChildMap(AllEntries(raw)), p), c) == Total(Column(Sections(raw), c), p)
    ensures At(ParentMap(AllEntries(raw)), c) == Last(Column(Sections(raw), c))
  {
    ChildMapCounts(AllEntries(raw), p, c);
    EntriesMeaning(Sections(raw), p, c);
  }

  /** The child map is the exact transpose of the parent map if and only if no id that occurs in two sections
      has parents in any but the last of them. */
  lemma TransposeIff(raw: Json)
    ensures Transposed(ParentMap(AllEntries(raw)), ChildMap(AllEntries(raw))) <==>
      (forall c :: OnlyLastLists(Column(Sections(raw), c)))
  {
    var parentMap, childMap := ParentMap(AllEntries(raw)), ChildMap(AllEntries(raw));
    if Transposed(parentMap, childMap) {
      forall c ensures OnlyLastLists(Column(Sections(raw), c)) {
        forall p ensures Total(Column(Sections(raw), c), p) == Count(Last(Column(Sections(raw), c)), p) {
          MapsMeaning(raw, p, c);
          assert Count(At(childMap, p), c) == Count(At(parentMap, c), p);
        }
        AgreesOnlyLast(Column(Sections(raw), c));
      }
    }
    if forall c :: OnlyLastLists(Column(Sections(raw), c)) {
      forall p, c ensures Count(At(childMap, p), c) == Count(At(parentMap, c), p) {
        MapsMeaning(raw, p, c);
        OnlyLastAgrees(Column(Sections(raw), c), p);
      }
    }
  }

  ghost predicate DistinctAcrossSections(raw: Json) {
    forall i, j, c :: 0 <= i < j < |SECTIONS| && c in Sections(raw)[i] ==> c !in Sections(raw)[j]
  }

  lemma DistinctIdsTranspose(raw: Json)
    requires DistinctAcrossSections(raw)
    ensures Transposed(ParentMap(AllEntries(raw)), ChildMap(AllEntries(raw)))
  {
    TransposeIff(raw);
  }

  /** A node with a parent and a unit test with none share an id. */
  ghost function RepeatedId(): Json {
    var withParent := Object(map["depends_on" := Object(map["nodes" := Array([Text("p")])])]);
    Object(map["nodes" := Object(map["x" := withParent]), "unit_tests" := Object(map["x" := Null])])
  }

  lemma RepeatedIdColumn()
    ensures Column(Sections(RepeatedId()), "x")[0] == Some(["p"]) && Column(Sections(RepeatedId()), "x")[6].Some?
  {
    var node := Section(RepeatedId(), "nodes")["x"];
    assert Get(Get(node, "depends_on").value, "nodes") == Some(Array([Text("p")]));
    assert Strings([Text("p")]) == ["p"];
    assert SECTIONS[0] == "nodes" && SECTIONS[6] == "unit_tests";
  }

  /** The child map keeps an edge that the parent map lost. */
  lemma RepeatedIdBreaksTranspose()
    ensures !Transposed(ParentMap(AllEntries(RepeatedId())), ChildMap(AllEntries(RepeatedId())))
  {
    RepeatedIdColumn();
    TransposeIff(RepeatedId());
    assert !OnlyLastLists(Column(Sections(RepeatedId()), "x"));
  }

  // ---------------------------------------------------------------------------------------------
  // Reconstruction

  /** Nodes that are present take their last successful version; absent ones are not added. */
  function Overridden(nodes: map<string, Json>, successful: map<string, Json>): map<string, Json> {
    map id | id in nodes :: if id in successful then successful[id] else nodes[id]
  }

  function WithNodes(raw: Json, successful: map<string, Json>): Json {
    match Get(raw, "nodes")
    case Some(Object(nodes)) => Object(raw.fields["nodes" := Object(Overridden(nodes, successful))])
    case _ => raw
  }

  function Texts(s: seq<string>): (r: seq<Json>)
    ensures Strings(r) == s
  {
    if s == [] then []
    else
      var front := Texts(s[..|s| - 1]);
      assert (front + [Text(s[|s| - 1])])[..|front|] == front;
      front + [Text(s[|s| - 1])]
  }

  function ToJson(m: Lists): Json {
    Object(map key | key in m :: Array(Texts(m[key])))
  }

  /** Assignment to a field; a null value becomes an object first. */
  function SetField(v: Json, key: string, value: Json): Json
    requires v.Object? || v.Null?
  {
    if v.Object? then Object(v.fields[key := value]) else Object(map[key := value])
  }

  function SetMaps(v: Json, parents: Json, children: Json): Json
    requires v.Object? || v.Null?
  {
    SetField(SetField(v, "parent_map", parents), "child_map", children)
  }

  ghost function WithMaps(raw: Json): Json
    requires raw.Object? || raw.Null?
  {
    SetMaps(raw, ToJson(ParentMap(AllEntries(raw))), ToJson(ChildMap(AllEntries(raw))))
  }

  ghost function Reconstructed(raw: Json, successful: map<string, Json>): Json
    requires raw.Object? || raw.Null?
  {
    WithMaps(WithNodes(raw, successful))
  }

  /** The strings that a map of lists in the manifest has for a key. */
  function ListedIn(raw: Json, field: string, key: string): seq<string> {
    var lists := Section(raw, field);
    if key in lists then ArrayStrings(Some(lists[key])) else []
  }

  lemma ListsSet(v: Json, m: Lists, field: string, key: string)
    requires v.Object? && field in v.fields && v.fields[field] == ToJson(m)
    ensures ListedIn(v, field, key) == At(m, key)
  {
    assert Section(v, field) == ToJson(m).fields;
    if key in m {
      assert ToJson(m).fields[key] == Array(Texts(m[key]));
    }
  }

  /** Versions replace the nodes that are there, and none is added. */
  lemma ReconstructedNodes(raw: Json, successful: map<string, Json>)
    requires raw.Object? || raw.Null?
    ensures var nodes := Section(Reconstructed(raw, successful), "nodes");
      && nodes.Keys == Section(raw, "nodes").Keys
      && forall id :: id in nodes ==>
           nodes[id] == if id in successful then successful[id] else Section(raw, "nodes")[id]
  {
    var v := WithNodes(raw, successful);
    SetMapsSections(v, ToJson(ParentMap(AllEntries(v))), ToJson(ChildMap(AllEntries(v))));
    assert Sections(Reconstructed(raw, successful))[0] == Section(Reconstructed(raw, successful), "nodes");
    assert Sections(v)[0] == Section(v, "nodes");
  }

  /** Both maps list what the entries of the reconstructed sections say. */
  lemma ReconstructedLists(raw: Json, successful: map<string, Json>, p: string, c: string)
    requires raw.Object? || raw.Null?
    ensures var r := Reconstructed(raw, successful);
      && Count(ListedIn(r, "child_map", p), c) == Total(Column(Sections(r), c), p)
      && ListedIn(r, "parent_map", c) == Last(Column(Sections(r), c))
  {
    var v, r := WithNodes(raw, successful), Reconstructed(raw, successful);
    var parents, children := ParentMap(AllEntries(v)), ChildMap(AllEntries(v));
    SetMapsSections(v, ToJson(parents), ToJson(children));
    MapsMeaning(v, p, c);
    ListsSet(r, children, "child_map", p);
    ListsSet(r, parents, "parent_map", c);
  }

  /** Every field but the nodes and the two maps is as it was. */
  lemma ReconstructedFields(raw: Json, successful: map<string, Json>, key: string)
    requires (raw.Object? || raw.Null?) && key !in {"nodes", "parent_map", "child_map"}
    ensures Reconstructed(raw, successful).Object?
    ensures Get(Reconstructed(raw, successful), key) == Get(raw, key)
  {
  }

  lemma ReconstructionIs(raw: Json, successful: map<string, Json>)
    requires raw.Object? || raw.Null?
    ensures var r := Reconstructed(raw, successful);
      && Section(r, "nodes").Keys == Section(raw, "nodes").Keys
      && (forall id :: id in Section(r, "nodes") ==>
            Section(r, "nodes")[id] == if id in successful then successful[id] else Section(raw, "nodes")[id])
      && (forall key :: key !in {"nodes", "parent_map", "child_map"} ==> Get(r, key) == Get(raw, key))
      && (forall p, c :: Count(ListedIn(r, "child_map", p), c) == Total(Column(Sections(r), c), p))
      && (forall c :: ListedIn(r, "parent_map", c) == Last(Column(Sections(r), c)))
  {
    var r := Reconstructed(raw, successful);
    ReconstructedNodes(raw, successful);
    forall key | key !in {"nodes", "parent_map", "child_map"} ensures Get(r, key) == Get(raw, key) {
      ReconstructedFields(raw, successful, key);
    }
    forall p, c ensures Count(ListedIn(r, "child_map", p), c) == Total(Column(Sections(r), c), p) {
      ReconstructedLists(raw, successful, p, c);
    }
    forall c ensures ListedIn(r, "parent_map", c) == Last(Column(Sections(r), c)) {
      ReconstructedLists(raw, successful, "", c);
    }
  }

  /** Lays the versions over the nodes, one after the other. */
  method Override(original: Fields, successful: Fields) returns (nodes: Fields)
    ensures nodes == Overridden(original, successful)
  {
    nodes := original;
    var rest := successful.Keys;
    while rest != {}
      invariant rest <= successful.Keys && nodes.Keys == original.Keys
      invariant forall id :: id in nodes ==>
        nodes[id] == if id in successful && id !in rest then successful[id] else original[id]
      decreases rest
    {
      var id := PickFrom(rest);
      if id in nodes { nodes := nodes[id := successful[id]]; }
      rest := rest - {id};
    }
  }

  method Reconstruct(raw: Json, successful: map<string, Json>) returns (r: Json)
    requires raw.Object? || raw.Null?
    ensures r == Reconstructed(raw, successful)
    ensures Section(r, "nodes").Keys == Section(raw, "nodes").Keys
    ensures forall id :: id in Section(r, "nodes") ==>
      Section(r, "nodes")[id] == if id in successful then successful[id] else Section(raw, "nodes")[id]
    ensures forall key :: key !in {"nodes", "parent_map", "child_map"} ==> Get(r, key) == Get(raw, key)
    ensures forall p, c :: Count(ListedIn(r, "child_map", p), c) == Total(Column(Sections(r), c), p)
    ensures forall c :: ListedIn(r, "parent_map", c) == Last(Column(Sections(r), c))
  {
    r := raw;
    var found := Get(raw, "nodes");
    if found.Some? && found.value.Object? {
      var nodes := Override(found.value.fields, successful);
      r := Object(raw.fields["nodes" := Object(nodes)]);
    }
    var parentMap, childMap := RebuildDependencyMaps(r);
    r := SetMaps(r, ToJson(parentMap), ToJson(childMap));
    ReconstructionIs(raw, successful);
  }

  lemma SectionsAreNotMaps()
    ensures "parent_map" !in SECTIONS && "child_map" !in SECTIONS
  {
  }

  /** Setting a field that is no section changes no section. */
  lemma SetFieldSections(v: Json, key: string, value: Json)
    requires (v.Object? || v.Null?) && key !in SECTIONS
    ensures Sections(SetField(v, key, value)) == Sections(v)
  {
    forall i | 0 <= i < |SECTIONS| ensures Section(SetField(v, key, value), SECTIONS[i]) == Section(v, SECTIONS[i]) {
      assert SECTIONS[i] in SECTIONS;
    }
  }

  lemma SetMapsSections(v: Json, parents: Json, children: Json)
    requires v.Object? || v.Null?
    ensures Sections(SetMaps(v, parents, children)) == Sections(v)
  {
    SectionsAreNotMaps();
    SetFieldSections(v, "parent_map", parents);
    SetFieldSections(SetField(v, "parent_map", parents), "child_map", children);
  }

  lemma UpdatesCommute<T>(m: map<string, T>, k: string, l: string, n: string, a: T, b: T, x: T)
    requires k != n && l != n
    ensures m[k := a][l := b][n := x] == m[n := x][k := a][l := b]
  {
  }

  /** Overriding nodes after setting the maps is overriding them before. */
  lemma OverrideCommutes(v: Json, parents: Json, children: Json, b: map<string, Json>)
    requires v.Object?
    ensures WithNodes(SetMaps(v, parents, children), b) == SetMaps(WithNodes(v, b), parents, children)
  {
    assert Get(SetMaps(v, parents, children), "nodes") == Get(v, "nodes");
    match Get(v, "nodes") {
      case Some(Object(nodes)) =>
        UpdatesCommute(v.fields, "parent_map", "child_map", "nodes", parents, children, Object(Overridden(nodes, b)));
      case _ =>
    }
  }

  /** Maps set before are replaced. */
  lemma MapsReplaced(v: Json, parents: Json, children: Json)
    requires v.Object? || v.Null?
    ensures WithMaps(SetMaps(v, parents, children)) == WithMaps(v)
  {
    SetMapsSections(v, parents, children);
    SetMapsTwice(v, parents, children, ToJson(ParentMap(AllEntries(v))), ToJson(ChildMap(AllEntries(v))));
  }

  lemma SetMapsTwice(v: Json, parents: Json, children: Json, x: Json, y: Json)
    requires v.Object? || v.Null?
    ensures SetMaps(SetMaps(v, parents, children), x, y) == SetMaps(v, x, y)
  {
    UpdateTwice(if v.Object? then v.fields else map[], "parent_map", "child_map", parents, children, x, y);
  }

  lemma UpdateTwice<T>(m: map<string, T>, k: string, l: string, a: T, b: T, x: T, y: T)
    requires k != l
    ensures m[k := a][l := b][k := x][l := y] == m[k := x][l := y]
  {
  }

  /** Rebuilding the maps of a value with other maps gives the same as rebuilding them without. */
  lemma OverrideUnderMaps(raw: Json, b: map<string, Json>)
    requires raw.Object? || raw.Null?
    ensures WithMaps(WithNodes(WithMaps(raw), b)) == WithMaps(WithNodes(raw, b))
  {
    var x, y := ToJson(ParentMap(AllEntries(raw))), ToJson(ChildMap(AllEntries(raw)));
    if raw.Object? {
      OverrideCommutes(raw, x, y, b);
      MapsReplaced(WithNodes(raw, b), x, y);
    } else {
      assert WithNodes(SetMaps(raw, x, y), b) == SetMaps(raw, x, y);
      MapsReplaced(raw, x, y);
    }
  }

  lemma OverrideTwice(raw: Json, a: map<string, Json>, b: map<string, Json>)
    ensures WithNodes(WithNodes(raw, a), b) == WithNodes(raw, a + b)
  {
    match Get(raw, "nodes") {
      case Some(Object(nodes)) =>
        assert Overridden(Overridden(nodes, a), b) == Overridden(nodes, a + b);
        assert WithNodes(WithNodes(raw, a), b).fields == WithNodes(raw, a + b).fields;
      case _ =>
    }
  }

  /** Reconstructing twice is reconstructing once with the second set of versions laid over the first. */
  lemma ReconstructCompose(raw: Json, a: map<string, Json>, b: map<string, Json>)
    requires raw.Object? || raw.Null?
    ensures Reconstructed(raw, a).Object?
    ensures Reconstructed(Reconstructed(raw, a), b) == Reconstructed(raw, a + b)
  {
    OverrideUnderMaps(WithNodes(raw, a), b);
    OverrideTwice(raw, a, b);
  }

  lemma ReconstructIdempotent(raw: Json, a: map<string, Json>)
    requires raw.Object? || raw.Null?
    ensures Reconstructed(raw, a).Object?
    ensures Reconstructed(Reconstructed(raw, a), a) == Reconstructed(raw, a)
  {
    ReconstructCompose(raw, a, a);
    assert a + a == a;
  }

  // ---------------------------------------------------------------------------------------------
  // Edges

  datatype Edge = Edge(parent: string, child: string)

  /** The strings that the `parent_map` of a manifest lists for `c`. */
  function ListedParents(raw: Json, c: string): seq<string> {
    ListedIn(raw, "parent_map", c)
  }

  /** Each edge as often as the parent map lists it, and no other. */
  ghost predicate EdgesOf(raw: Json, edges: seq<Edge>) {
    forall p, c :: multiset(edges)[Edge(p, c)] == Count(ListedParents(raw, c), p)
  }

  method ExtractEdges(raw: Json) returns (edges: seq<Edge>)
    ensures EdgesOf(raw, edges)
  {
    edges := [];
    var lists := Section(raw, "parent_map");
    var rest := lists.Keys;
    while rest != {}
      invariant rest <= lists.Keys
      invariant forall p, c :: multiset(edges)[Edge(p, c)] == if c in rest then 0 else Count(ListedParents(raw, c), p)
      decreases rest
    {
      var child := PickFrom(rest);
      var pushed := EdgesTo(ListedParents(raw, child), child);
      edges := edges + pushed;
      rest := rest - {child};
    }
  }

  method EdgesTo(parents: seq<string>, child: string) returns (edges: seq<Edge>)
    ensures forall p, c :: multiset(edges)[Edge(p, c)] == if c == child then Count(parents, p) else 0
  {
    edges := [];
    for i := 0 to |parents|
      invariant forall p, c :: multiset(edges)[Edge(p, c)] == if c == child then Count(parents[..i], p) else 0
    {
      assert parents[..i + 1] == parents[..i] + [parents[i]];
      edges := edges + [Edge(parents[i], child)];
    }
    assert parents[..|parents|] == parents;
  }

  /** The edges extracted from a reconstructed manifest are exactly the dependencies its entries declare,
      if and only if no id that occurs in two sections has parents in any but the last of them. */
  lemma EdgesAreDependencies(raw: Json, a: map<string, Json>, edges: seq<Edge>)
    requires raw.Object? || raw.Null?
    requires EdgesOf(Reconstructed(raw, a), edges)
    ensures var sections := Sections(Reconstructed(raw, a));
      (forall p, c :: multiset(edges)[Edge(p, c)] == Total(Column(sections, c), p)) <==>
      (forall c :: OnlyLastLists(Column(sections, c)))
  {
    var r := Reconstructed(raw, a);
    forall p, c ensures multiset(edges)[Edge(p, c)] == Count(Last(Column(Sections(r), c)), p) {
      ReconstructedLists(raw, a, p, c);
    }
    if forall p, c :: multiset(edges)[Edge(p, c)] == Total(Column(Sections(r), c), p) {
      forall c ensures OnlyLastLists(Column(Sections(r), c)) {
        forall p ensures Total(Column(Sections(r), c), p) == Count(Last(Column(Sections(r), c)), p) {
          assert multiset(edges)[Edge(p, c)] == Total(Column(Sections(r), c), p);
        }
        AgreesOnlyLast(Column(Sections(r), c));
      }
    }
    if forall c :: OnlyLastLists(Column(Sections(r), c)) {
      forall p, c ensures multiset(edges)[Edge(p, c)] == Total(Column(Sections(r), c), p) {
        OnlyLastAgrees(Column(Sections(r), c), p);
      }
    }
  }
}
