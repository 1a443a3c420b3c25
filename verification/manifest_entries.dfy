/** What the rebuilt dependency maps hold, read off the JSON of the manifest. */
module ManifestEntries {
  import opened Common
  import opened Manifest

  lemma {:induction false} StringsCount(items: seq<Json>, p: string)
    ensures Count(Strings(items), p) == multiset(items)[Text(p)]
  {
    if items != [] {
      var front, last := items[..|items| - 1], items[|items| - 1];
      StringsCount(front, p);
      assert items == front + [last];
    }
  }

  /** The value at a path of two fields is a list that holds the text. */
  ghost predicate ListsAt(entry: Json, outer: string, inner: string, p: string) {
    && entry.Object? && outer in entry.fields && entry.fields[outer].Object? && inner in entry.fields[outer].fields
    && entry.fields[outer].fields[inner].Array? && Text(p) in entry.fields[outer].fields[inner].items
  }

  lemma ParentsIff(entry: Json, p: string)
    ensures p in Parents(entry) <==> ListsAt(entry, "depends_on", "nodes", p)
  {
    assert p in Parents(entry) <==> Count(Parents(entry), p) > 0;
    if entry.Object? && "depends_on" in entry.fields && entry.fields["depends_on"].Object? &&
      "nodes" in entry.fields["depends_on"].fields && entry.fields["depends_on"].fields["nodes"].Array?
    {
      var items := entry.fields["depends_on"].fields["nodes"].items;
      StringsCount(items, p);
      assert Text(p) in items <==> multiset(items)[Text(p)] > 0;
    }
  }

  /** Some section of that name has an entry for `c` that depends on `p`. */
  ghost predicate Declares(raw: Json, name: string, p: string, c: string) {
    && raw.Object? && name in raw.fields && raw.fields[name].Object? && c in raw.fields[name].fields
    && ListsAt(raw.fields[name].fields[c], "depends_on", "nodes", p)
  }

  lemma {:induction false} TotalPositive(column: seq<Option<seq<string>>>, p: string)
    ensures Total(column, p) > 0 <==> exists i :: 0 <= i < |column| && column[i].Some? && p in column[i].value
  {
    if column != [] {
      TotalPositive(column[..|column| - 1], p);
      var last := column[|column| - 1];
      assert last.Some? ==> (Count(last.value, p) > 0 <==> p in last.value);
    }
  }

  lemma ColumnDeclares(raw: Json, i: nat, p: string, c: string)
    requires i < |SECTIONS|
    ensures Declares(raw, SECTIONS[i], p, c) <==>
      Column(Sections(raw), c)[i].Some? && p in Column(Sections(raw), c)[i].value
  {
    var fields := Section(raw, SECTIONS[i]);
    if c in fields { ParentsIff(fields[c], p); }
  }

  lemma SectionNames(name: string)
    ensures name in SECTIONS <==>
      name in {"nodes", "sources", "exposures", "metrics", "semantic_models", "saved_queries", "unit_tests"}
  {
  }

  lemma ChildMapDeclares(raw: Json, p: string, c: string)
    ensures c in At(ChildMap(AllEntries(raw)), p) <==>
      exists i :: 0 <= i < |SECTIONS| && Declares(raw, SECTIONS[i], p, c)
  {
    MapsMeaning(raw, p, c);
    TotalPositive(Column(Sections(raw), c), p);
    forall i | 0 <= i < |SECTIONS|
      ensures Declares(raw, SECTIONS[i], p, c) <==>
        Column(Sections(raw), c)[i].Some? && p in Column(Sections(raw), c)[i].value
    {
      ColumnDeclares(raw, i, p, c);
    }
    assert c in At(ChildMap(AllEntries(raw)), p) <==> Count(At(ChildMap(AllEntries(raw)), p), c) > 0;
  }

  /** The child map lists `c` under `p` exactly when an entry for `c`, in one of the seven sections, depends on `p`. */
  lemma ChildMapIff(raw: Json, p: string, c: string)
    ensures c in At(ChildMap(AllEntries(raw)), p) <==>
      exists name :: Declares(raw, name, p, c) && name in {"nodes", "sources", "exposures", "metrics",
        "semantic_models", "saved_queries", "unit_tests"}
  {
    ChildMapDeclares(raw, p, c);
    if i :| 0 <= i < |SECTIONS| && Declares(raw, SECTIONS[i], p, c) {
      SectionNames(SECTIONS[i]);
    }
    if name :| Declares(raw, name, p, c) && name in {"nodes", "sources", "exposures", "metrics", "semantic_models",
      "saved_queries", "unit_tests"}
    {
      SectionNames(name);
    }
  }
}
