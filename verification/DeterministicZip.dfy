/** The deterministic archive writer of scripts/ga/build_windows_authority_operation_package.py. */
module DeterministicZip {
  import opened Collections
  import opened Sorting

  datatype ZipEntry = ZipEntry(name: string, data: string)

  function FoldedNames(fold: string -> string, entries: seq<ZipEntry>): seq<string> {
    seq(|entries|, i requires 0 <= i < |entries| => fold(entries[i].name))
  }

  function ByFold(fold: string -> string): (ZipEntry, ZipEntry) -> bool {
    ByKey((e: ZipEntry) => fold(e.name))
  }

  /** What an archive looks like: names strictly increasing once case is folded. */
  ghost predicate Increasing(fold: string -> string, entries: seq<ZipEntry>) {
    forall i, j :: 0 <= i < j < |entries| ==>
      LexLe(fold(entries[i].name), fold(entries[j].name)) && fold(entries[i].name) != fold(entries[j].name)
  }

  lemma FoldDistinct(fold: string -> string, entries: seq<ZipEntry>)
    ensures Distinct(FoldedNames(fold, entries)) <==> NoTies(entries, ByFold(fold))
    ensures Distinct(FoldedNames(fold, entries)) ==> Distinct(entries)
  {
    var names := FoldedNames(fold, entries);
    forall i, j | 0 <= i < j < |entries|
      ensures names[i] != names[j] <==> !(ByFold(fold)(entries[i], entries[j]) && ByFold(fold)(entries[j], entries[i]))
    {
      LexTotal(names[i], names[j]);
    }
  }

  lemma SortedIsIncreasing(fold: string -> string, entries: seq<ZipEntry>)
    requires Distinct(FoldedNames(fold, entries))
    ensures Increasing(fold, Sort(entries, ByFold(fold)))
  {
    var sorted := Sort(entries, ByFold(fold));
    ByKeyOrders((e: ZipEntry) => fold(e.name));
    SortSorted(entries, ByFold(fold));
    FoldDistinct(fold, entries);
    NoTiesPermutation(entries, sorted, ByFold(fold));
    hide NoTies;
    FoldDistinct(fold, sorted);
    forall i, j | 0 <= i < j < |sorted|
      ensures LexLe(fold(sorted[i].name), fold(sorted[j].name)) && fold(sorted[i].name) != fold(sorted[j].name)
    {
      assert ByFold(fold)(sorted[i], sorted[j]);
      assert FoldedNames(fold, sorted)[i] != FoldedNames(fold, sorted)[j];
    }
  }

  /** `_write_deterministic_zip`, for any case-folding function. */
  method WriteDeterministicZip(fold: string -> string, entries: seq<ZipEntry>) returns (archive: Result<seq<ZipEntry>>)
    ensures archive.Ok? <==> Distinct(FoldedNames(fold, entries))
    ensures archive.Ok? ==> multiset(archive.value) == multiset(entries) && Increasing(fold, archive.value)
  {
    hide Increasing, Sort, ByFold;
    var names := FoldedNames(fold, entries);
    CardinalityCountsDistinct(names);
    if |Elements(names)| != |names| { return Raised; }
    var normalized := Sort(entries, ByFold(fold));
    SortedIsIncreasing(fold, entries);
    var written: seq<ZipEntry> := [];
    for i := 0 to |normalized|
      invariant written == normalized[..i]
    {
      written := written + [normalized[i]];
    }
    assert written == normalized;
    return Ok(written);
  }

  /** There is only one such archive for given entries, whatever order they came in. */
  lemma ArchiveIsCanonical(fold: string -> string, a: seq<ZipEntry>, b: seq<ZipEntry>)
    requires multiset(a) == multiset(b) && Increasing(fold, a) && Increasing(fold, b)
    ensures a == b
  {
    var le := ByFold(fold);
    forall i, j | 0 <= i < j < |a| ensures !(le(a[i], a[j]) && le(a[j], a[i])) {
      LexTotal(fold(a[i].name), fold(a[j].name));
    }
    SortedUnique(a, b, le);
  }
}
