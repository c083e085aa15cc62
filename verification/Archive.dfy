/** The tar archive: named byte strings, written in any order, read back by name. */
module Archive {
  datatype Entry = Entry(name: string, data: string)

  type Files = map<string, string>

  /** Reading a missing file gives no bytes. */
  function ReadFile(files: Files, name: string): string {
    if name in files then files[name] else ""
  }

  ghost predicate Listed(archive: seq<Entry>, name: string) {
    exists i :: 0 <= i < |archive| && archive[i].name == name
  }

  /** Each file exactly once, in some order. */
  ghost predicate IsArchiveOf(archive: seq<Entry>, files: Files) {
    && (forall i :: 0 <= i < |archive| ==> archive[i].name in files && files[archive[i].name] == archive[i].data)
    && (forall i, j :: 0 <= i < j < |archive| ==> archive[i].name != archive[j].name)
    && (forall name :: name in files ==> Listed(archive, name))
  }

  /** Iterates over the map in an arbitrary order, as map iteration does. */
  method WriteTarGz(files: Files) returns (archive: seq<Entry>)
    ensures IsArchiveOf(archive, files)
  {
    archive := [];
    var left := files.Keys;
    while left != {}
      invariant left <= files.Keys
      invariant forall i :: 0 <= i < |archive| ==>
                  archive[i].name in files && archive[i].name !in left && files[archive[i].name] == archive[i].data
      invariant forall i, j :: 0 <= i < j < |archive| ==> archive[i].name != archive[j].name
      invariant forall name :: name in files && name !in left ==> Listed(archive, name)
      decreases left
    {
      var name :| name in left;
      ghost var before := archive;
      archive := archive + [Entry(name, files[name])];
      left := left - {name};
      forall x | x in files && x !in left ensures Listed(archive, x) {
        if x == name {
          assert archive[|before|].name == x;
        } else {
          assert Listed(before, x);
          var i :| 0 <= i < |before| && before[i].name == x;
          assert archive[i].name == x;
        }
      }
    }
  }

  /** Entries in order; empty ones are skipped, later ones replace earlier ones. */
  function Extracted(archive: seq<Entry>): Files {
    if archive == [] then map[]
    else
      var files, last := Extracted(archive[..|archive| - 1]), archive[|archive| - 1];
      if last.data == "" then files else files[last.name := last.data]
  }

  method ExtractTarGz(archive: seq<Entry>) returns (files: Files)
    ensures files == Extracted(archive)
  {
    files := map[];
    var i := 0;
    assert archive[..0] == [];
    while i < |archive|
      invariant 0 <= i <= |archive|
      invariant files == Extracted(archive[..i])
    {
      var head := archive[i];
      assert archive[..i + 1][..i] == archive[..i];
      i := i + 1;
      if |head.data| == 0 { continue; }
      files := files[head.name := head.data];
    }
    assert archive[..i] == archive;
  }

  /** Entry i is the last one of the name that has any bytes. */
  predicate LastOf(archive: seq<Entry>, i: nat, name: string) {
    && i < |archive| && archive[i].name == name && archive[i].data != ""
    && forall k :: i < k < |archive| && archive[k].name == name ==> archive[k].data == ""
  }

  /** However often a name is repeated, its last entry with any bytes is what is read; without one, nothing is. */
  lemma {:induction false} LastNonEmptyWins(archive: seq<Entry>, name: string)
    ensures forall i: nat :: LastOf(archive, i, name) ==> ReadFile(Extracted(archive), name) == archive[i].data
    ensures (forall i :: 0 <= i < |archive| && archive[i].name == name ==> archive[i].data == "") ==>
              name !in Extracted(archive)
    decreases |archive|
  {
    if archive != [] {
      var front, last := archive[..|archive| - 1], archive[|archive| - 1];
      LastNonEmptyWins(front, name);
      forall i: nat | LastOf(archive, i, name) ensures ReadFile(Extracted(archive), name) == archive[i].data {
        if i < |front| { assert LastOf(front, i, name); }
      }
    }
  }

  /** Whatever the iteration order, every name reads back the same bytes. */
  lemma ArchiveRoundTrip(archive: seq<Entry>, files: Files, name: string)
    requires IsArchiveOf(archive, files)
    ensures ReadFile(Extracted(archive), name) == ReadFile(files, name)
  {
    LastNonEmptyWins(archive, name);
    if name in files && files[name] != "" {
      var i: nat :| i < |archive| && archive[i].name == name;
      assert LastOf(archive, i, name);
    }
  }
}
