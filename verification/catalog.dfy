/** The entity catalog: which directory entries are workloads and which files are strategies. */
module Catalog {
  import opened Types
  import opened PyStr

  /** What a directory scan reports for one entry. */
  datatype DirEntry = DirEntry(name: string, path: string, isDir: bool, isFile: bool)

  /** A top-level directory other than the configured ignore name (the common library). */
  predicate IsWorkload(e: DirEntry, ignore: string)
  {
    e.isDir && e.name != ignore
  }

  /** A file under the strategies folder whose name ends with the configured extension. */
  predicate IsStrategy(e: DirEntry, ext: string)
  {
    e.isFile && EndsWith(e.name, ext)
  }

  /** The catalog entry a workload directory becomes. */
  function AsWorkload(e: DirEntry): Entry
  {
    Entry(e.name, e.path)
  }

  /** The catalog entry a strategy file becomes, named by the slice as written. */
  function AsStrategy(ext: string): DirEntry -> Entry
  {
    (e: DirEntry) => Entry(StripExtAsWritten(e.name, ext), e.path)
  }

  /** `r` lists entries of the scan `es`, each turned into a catalog entry by `f`, in scan
      order: it is a subsequence of the scan's entries. */
  predicate InScanOrder(r: seq<Entry>, es: seq<DirEntry>, f: DirEntry -> Entry)
    decreases |es|
  {
    if es == [] then r == []
    else
      || InScanOrder(r, es[1..], f)
      || (r != [] && r[0] == f(es[0]) && InScanOrder(r[1..], es[1..], f))
  }

  /** `all_workloads`: the workload entries of one scan of the workload root, in scan order. */
  function AllWorkloads(entries: seq<DirEntry>, ignore: string): (r: seq<Entry>)
    ensures |r| <= |entries|
    ensures forall x :: x in r ==> x.name != ignore
    ensures forall x :: x in r <==> exists e :: e in entries && IsWorkload(e, ignore) && x == Entry(e.name, e.path)
    ensures InScanOrder(r, entries, AsWorkload)
    decreases |entries|
  {
    if entries == [] then []
    else
      var e := entries[0];
      var rest := AllWorkloads(entries[1..], ignore);
      assert forall d :: d in entries <==> d == e || d in entries[1..];
      if IsWorkload(e, ignore) then
        assert ([AsWorkload(e)] + rest)[1..] == rest;
        [AsWorkload(e)] + rest
      else rest
  }

  /** `name[: -len(ext)]` exactly as written. Python reads `-0` as `0`, so an empty extension
      slices every name down to the empty string. */
  function StripExtAsWritten(name: string, ext: string): (r: string)
    ensures r <= name
    ensures ext == [] ==> r == []
    ensures ext != [] && EndsWith(name, ext) ==> r + ext == name
  {
    SliceDropLast(name, |ext|)
  }

  /** The evidently intended stripping: the name without its extension suffix. */
  function StripExt(name: string, ext: string): (r: string)
    requires EndsWith(name, ext)
    ensures r + ext == name
  {
    name[..|name| - |ext|]
  }

  /** With an empty extension the code as written erases the strategy's name, while the
      intended stripping keeps it. */
  lemma EmptyExtensionErasesName()
    ensures StripExtAsWritten("Bespoke", "") == ""
    ensures StripExt("Bespoke", "") == "Bespoke"
  {
  }

  /** For every non-empty extension the code as written and the intended stripping agree. */
  lemma StripExtAgrees(name: string, ext: string)
    requires ext != []
    requires EndsWith(name, ext)
    ensures StripExtAsWritten(name, ext) == StripExt(name, ext)
  {
  }

  /** `all_strategies` as written: each strategy file named by the slice
      `name[: -len(ext)]`, in scan order. With a non-empty extension that is the name without
      it; with an empty extension every strategy is named by the empty string. */
  function AllStrategies(entries: seq<DirEntry>, ext: string): (r: seq<Entry>)
    ensures |r| <= |entries|
    ensures forall x :: x in r ==>
      exists e :: e in entries && IsStrategy(e, ext) && e.path == x.path && x.name == StripExtAsWritten(e.name, ext)
    ensures forall e :: e in entries && IsStrategy(e, ext) ==> Entry(StripExtAsWritten(e.name, ext), e.path) in r
    ensures ext == [] ==> forall x :: x in r ==> x.name == []
    ensures InScanOrder(r, entries, AsStrategy(ext))
    decreases |entries|
  {
    if entries == [] then []
    else
      var e := entries[0];
      var rest := AllStrategies(entries[1..], ext);
      assert forall d :: d in entries <==> d == e || d in entries[1..];
      if IsStrategy(e, ext) then
        assert ([AsStrategy(ext)(e)] + rest)[1..] == rest;
        [AsStrategy(ext)(e)] + rest
      else rest
  }

  /** The evidently intended `all_strategies`: each strategy file named by its name without
      the extension, in scan order. */
  function StrategiesIntended(entries: seq<DirEntry>, ext: string): (r: seq<Entry>)
    ensures |r| <= |entries|
    ensures forall x :: x in r ==>
      exists e :: e in entries && IsStrategy(e, ext) && e.path == x.path && e.name == x.name + ext
    ensures forall e :: e in entries && IsStrategy(e, ext) ==> Entry(StripExt(e.name, ext), e.path) in r
    decreases |entries|
  {
    if entries == [] then []
    else
      var e := entries[0];
      var rest := StrategiesIntended(entries[1..], ext);
      assert forall d :: d in entries <==> d == e || d in entries[1..];
      if IsStrategy(e, ext) then [Entry(StripExt(e.name, ext), e.path)] + rest else rest
  }

  /** With a non-empty extension, `all_strategies` as written is the intended one. */
  lemma {:induction false} StrategiesAgree(entries: seq<DirEntry>, ext: string)
    requires ext != []
    ensures AllStrategies(entries, ext) == StrategiesIntended(entries, ext)
    decreases |entries|
  {
    if entries != [] {
      StrategiesAgree(entries[1..], ext);
      if IsStrategy(entries[0], ext) {
        StripExtAgrees(entries[0].name, ext);
      }
    }
  }

  /** With an empty extension, `all_strategies` as written names the strategy file `Bespoke`
      by the empty string, where the intended catalog keeps `Bespoke`. */
  lemma EmptyExtensionErasesStrategies()
    ensures AllStrategies([DirEntry("Bespoke", "strategies/Bespoke", false, true)], "") == [Entry("", "strategies/Bespoke")]
    ensures StrategiesIntended([DirEntry("Bespoke", "strategies/Bespoke", false, true)], "") == [Entry("Bespoke", "strategies/Bespoke")]
  {
    var e := DirEntry("Bespoke", "strategies/Bespoke", false, true);
    assert IsStrategy(e, "");
    assert StripExt("Bespoke", "") == "Bespoke";
  }
}
