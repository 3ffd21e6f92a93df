/**
 The log archiver as a sequence of file-system steps, each of which may fail,
 with a crash possible between any two of them.
 */
module Archive {

  type Path = string
  type Bytes = seq<bv8>

  /** What a file-system call may do; after a crash nothing of the run is carried out any more. */
  datatype Io = Done | Failed | Crashed

  datatype Rename = Renamed | CrossDevice | RenameFailed | RenameCrashed

  datatype Outcome = Archived | Skipped | Ineligible | Interrupted

  datatype Counters = Counters(files: nat, bytes: nat, skipped: nat)

  function CountEligible(listing: seq<Path>, eligible: Path -> bool): nat {
    if listing == [] then 0
    else CountEligible(listing[..|listing| - 1], eligible) + if eligible(listing[|listing| - 1]) then 1 else 0
  }

  function SizeEligible(listing: seq<Path>, eligible: Path -> bool, files: map<Path, Bytes>): nat {
    if listing == [] then 0
    else
      var p := listing[|listing| - 1];
      SizeEligible(listing[..|listing| - 1], eligible, files) + if eligible(p) && p in files then |files[p]| else 0
  }

  /** The totals of two listings add up; a single log counts once, with its length, if it is old enough. */
  lemma {:induction false} TotalsAdd(xs: seq<Path>, ys: seq<Path>, eligible: Path -> bool, files: map<Path, Bytes>)
    ensures CountEligible(xs + ys, eligible) == CountEligible(xs, eligible) + CountEligible(ys, eligible)
    ensures SizeEligible(xs + ys, eligible, files) == SizeEligible(xs, eligible, files) + SizeEligible(ys, eligible, files)
    ensures forall p :: p in files ==>
      && CountEligible([p], eligible) == (if eligible(p) then 1 else 0)
      && SizeEligible([p], eligible, files) == if eligible(p) then |files[p]| else 0
    decreases |ys|
  {
    if ys == [] {
      assert xs + ys == xs;
    } else {
      var init := ys[..|ys| - 1];
      TotalsAdd(xs, init, eligible, files);
      assert (xs + ys)[..|xs + ys| - 1] == xs + init;
    }
  }

  ghost predicate SameExcept(p: Path, a: map<Path, Bytes>, b: map<Path, Bytes>) {
    forall q :: q != p ==> (q in a <==> q in b) && (q in a ==> a[q] == b[q])
  }

  class Disk {
    /** The live tree and the archive tree, by path relative to their roots. */
    var logs: map<Path, Bytes>
    var archive: map<Path, Bytes>

    /** Every log that was ever rotated, with the bytes it held then. */
    ghost var rotated: map<Path, Bytes>

    /**
     No log is lost: a log still in the live tree is intact and its archive copy,
     if any, is a prefix of it; a log gone from the live tree is whole in the archive.
     */
    ghost predicate Safe()
      reads this
    {
      && (forall p :: p in logs ==> p in rotated && logs[p] == rotated[p])
      && (forall p :: p in archive ==> p in rotated && archive[p] <= rotated[p])
      && (forall p :: p in rotated ==> p in logs || WholeInArchive(p))
    }

    ghost predicate WholeInArchive(p: Path)
      reads this
    {
      p in archive && p in rotated && archive[p] == rotated[p]
    }

    /** Only the two copies of one path may differ from before. */
    twostate predicate OnlyTouches(p: Path)
      reads this
    {
      rotated == old(rotated) && SameExcept(p, logs, old(logs)) && SameExcept(p, archive, old(archive))
    }

    constructor ()
      ensures Safe() && rotated == map[]
    {
      logs, archive, rotated := map[], map[], map[];
    }

    /** A new log is rotated into the live tree. */
    method Rotate(p: Path, content: Bytes)
      requires Safe() && p !in rotated
      modifies this
      ensures Safe() && rotated == old(rotated)[p := content]
      ensures logs == old(logs)[p := content] && archive == old(archive)
    {
      logs := logs[p := content];
      rotated := rotated[p := content];
    }

    // ---- Single steps ----

    method RemoveLog(p: Path) returns (r: Io)
      requires p in logs
      modifies `logs
      ensures logs == if r.Done? then old(logs) - {p} else old(logs)
    {
      r := *;
      if r.Done? {
        logs := logs - {p};
      }
    }

    method RemoveCopy(p: Path) returns (r: Io)
      modifies `archive
      ensures archive == if r.Done? then old(archive) - {p} else old(archive)
    {
      r := *;
      if r.Done? {
        archive := archive - {p};
      }
    }

    /** os.Rename: atomic when both trees share a file system. */
    method RenameLog(p: Path) returns (r: Rename)
      requires p in logs
      modifies `logs, `archive
      ensures r.Renamed? ==> logs == old(logs) - {p} && archive == old(archive)[p := old(logs)[p]]
      ensures !r.Renamed? ==> logs == old(logs) && archive == old(archive)
    {
      r := *;
      if r.Renamed? {
        archive := archive[p := logs[p]];
        logs := logs - {p};
      }
    }

    /** os.Create: makes the copy, or truncates one that is there. */
    method CreateCopy(p: Path) returns (r: Io)
      modifies `archive
      ensures archive == if r.Done? then old(archive)[p := []] else old(archive)
    {
      r := *;
      if r.Done? {
        archive := archive[p := []];
      }
    }

    /** io.Copy: any number of writes of any size, stopped by an error or a crash at any point. */
    method CopyChunks(p: Path) returns (r: Io)
      requires p in logs && p in archive && archive[p] == []
      modifies `archive
      ensures p in archive && SameExcept(p, archive, old(archive))
      ensures archive[p] <= logs[p] && (r.Done? ==> archive[p] == logs[p])
    {
      var data := logs[p];
      var n := 0;
      while n < |data|
        invariant n <= |data|
        invariant p in archive && SameExcept(p, archive, old(archive))
        invariant archive[p] == data[..n]
      {
        r := *;
        if !r.Done? {
          return;
        }
        var k: nat := *;
        var m := if 0 < k <= |data| - n then n + k else |data|;
        assert data[..m] == data[..n] + data[n..m];
        archive := archive[p := archive[p] + data[n..m]];
        n := m;
      }
      assert data[..n] == data;
      return Done;
    }

    // ---- moveFile ----

    method MoveFile(p: Path) returns (r: Io)
      requires Safe() && p in logs
      modifies `logs, `archive
      ensures Safe() && OnlyTouches(p)
      ensures r.Done? ==> p !in logs && WholeInArchive(p)
      ensures !r.Done? ==> p in logs
    {
      var renamed := RenameLog(p);
      match renamed {
        case Renamed => return Done;
        case RenameFailed => return Failed;
        case RenameCrashed => return Crashed;
        case CrossDevice =>
      }
      r := CopyAcross(p);
      if !r.Done? {
        return;
      }
      r := RemoveLog(p);
    }

    /** The cross-device path up to the finished copy; a failed copy is removed again if that works. */
    method CopyAcross(p: Path) returns (r: Io)
      requires Safe() && p in logs
      modifies `archive
      ensures Safe() && OnlyTouches(p)
      ensures r.Done? ==> WholeInArchive(p)
    {
      r := *; // os.Open
      if !r.Done? {
        return;
      }
      r := CreateCopy(p);
      if r.Done? {
        r := FillCopy(p);
      }
    }

    method FillCopy(p: Path) returns (r: Io)
      requires Safe() && p in logs && p in archive && archive[p] == []
      modifies `archive
      ensures Safe() && OnlyTouches(p)
      ensures r.Done? ==> WholeInArchive(p)
    {
      r := CopyChunks(p);
      if r.Done? {
        r := *; // Close
      }
      if r.Failed? {
        var cleanup := RemoveCopy(p);
        return if cleanup.Crashed? then Crashed else Failed;
      }
    }

    // ---- One file of a run ----

    /** Archives one path; `eligible` is the suffix and age test. */
    method ArchiveFile(p: Path, eligible: Path -> bool, dryRun: bool, c: Counters)
      returns (out: Outcome, c': Counters)
      requires Safe() && p in logs
      modifies `logs, `archive
      ensures Safe() && OnlyTouches(p)
      ensures !eligible(p) <==> out.Ineligible?
      ensures dryRun || out.Ineligible? ==> logs == old(logs) && archive == old(archive)
      ensures out.Archived? && !dryRun ==> p !in logs && WholeInArchive(p)
      ensures !out.Archived? ==> p in logs
      ensures out.Skipped? || out.Interrupted? ==> !dryRun
      ensures match out
              case Archived => c' == c.(files := c.files + 1, bytes := c.bytes + |old(logs)[p]|)
              case Skipped => c' == c.(skipped := c.skipped + 1)
              case _ => c' == c
    {
      c' := c;
      if !eligible(p) {
        return Ineligible, c';
      }
      var size := |logs[p]|;
      if dryRun {
        c' := c'.(files := c'.files + 1, bytes := c'.bytes + size);
        return Archived, c';
      }
      var r := Transfer(p);
      out, c' := Tally(r, c', size);
    }

    /** A copy of the same size makes the log superfluous; any other copy is replaced. */
    method Transfer(p: Path) returns (r: Io)
      requires Safe() && p in logs
      modifies `logs, `archive
      ensures Safe() && OnlyTouches(p)
      ensures if r.Done? then p !in logs && WholeInArchive(p) else p in logs
    {
      r := Done;
      if p in archive {
        if |archive[p]| == |logs[p]| {
          // The copy is a prefix of the source, so equal size means equal bytes.
          r := RemoveLog(p);
          return;
        }
        r := RemoveCopy(p);
        if !r.Done? {
          return;
        }
      }
      r := *; // MkdirAll
      if r.Done? {
        r := MoveFile(p);
      }
    }

    static method Tally(r: Io, c: Counters, size: nat) returns (out: Outcome, c': Counters)
      ensures r.Done? ==> out == Archived && c' == c.(files := c.files + 1, bytes := c.bytes + size)
      ensures r.Failed? ==> out == Skipped && c' == c.(skipped := c.skipped + 1)
      ensures r.Crashed? ==> out == Interrupted && c' == c
    {
      match r {
        case Done => out, c' := Archived, c.(files := c.files + 1, bytes := c.bytes + size);
        case Failed => out, c' := Skipped, c.(skipped := c.skipped + 1);
        case Crashed => out, c' := Interrupted, c;
      }
    }

    // ---- One run, and many ----

    /**
     A run over the files the walk lists. Nothing is lost wherever it stops; a run
     that is not interrupted accounts for every eligible file, and each file it
     counts as archived has left the live tree.
     */
    method RunArchive(listing: seq<Path>, eligible: Path -> bool, dryRun: bool)
      returns (c: Counters, finished: bool)
      requires Safe()
      requires forall i :: 0 <= i < |listing| ==> listing[i] in logs
      requires forall i, j :: 0 <= i < j < |listing| ==> listing[i] != listing[j]
      modifies `logs, `archive
      ensures Safe() && rotated == old(rotated)
      ensures |logs| + (if dryRun then 0 else c.files) == |old(logs)|
      ensures forall p :: p in old(logs) && !(p in listing && eligible(p)) ==> p in logs
      ensures finished ==> c.files + c.skipped == CountEligible(listing, eligible)
      ensures dryRun ==> finished && c.skipped == 0 && logs == old(logs) && archive == old(archive)
      ensures finished && c.skipped == 0 ==> c.bytes == SizeEligible(listing, eligible, old(logs))
      ensures finished && c.skipped == 0 && !dryRun ==>
                forall p :: p in listing && eligible(p) ==> p !in logs && WholeInArchive(p)
    {
      hide SameExcept; hide WholeInArchive;
      c := Counters(0, 0, 0);
      for i := 0 to |listing|
        invariant Safe() && rotated == old(rotated)
        invariant forall j :: i <= j < |listing| ==> listing[j] in logs
        invariant logs.Keys <= old(logs).Keys
        invariant |logs| + (if dryRun then 0 else c.files) == |old(logs)|
        invariant forall p :: p in old(logs) && !(p in listing && eligible(p)) ==> p in logs
        invariant c.files + c.skipped == CountEligible(listing[..i], eligible)
        invariant dryRun ==> c.skipped == 0 && logs == old(logs) && archive == old(archive)
        invariant c.skipped == 0 ==> c.bytes == SizeEligible(listing[..i], eligible, old(logs))
        invariant c.skipped == 0 && !dryRun ==>
                    forall j :: 0 <= j < i && eligible(listing[j]) ==> listing[j] !in logs
      {
        var p := listing[i];
        assert listing[..i + 1][..i] == listing[..i];
        ghost var before := logs;
        var out: Outcome;
        out, c := ArchiveFile(p, eligible, dryRun, c);
        OneRemoved(before, logs, p);
        if out.Interrupted? {
          return c, false;
        }
      }
      assert listing[..|listing|] == listing;
      finished := true;
    }

    method RotateAll(rotations: seq<Rotation>)
      requires Safe() && NewPaths(rotated.Keys, rotations)
      modifies this
      ensures Safe() && rotated == Grown(old(rotated), rotations) && archive == old(archive)
    {
      hide Safe; hide Grown;
      GrownInOrder(rotated, rotations, 0);
      assert rotations[0..] == rotations;
      for i := 0 to |rotations|
        invariant Safe() && rotated == Grown(old(rotated), rotations[..i]) && archive == old(archive)
        invariant NewPaths(rotated.Keys, rotations[i..])
      {
        GrownInOrder(old(rotated), rotations, i);
        assert rotations[i..][0] == rotations[i] && rotations[i..][1..] == rotations[i + 1..];
        assert rotated[rotations[i].p := rotations[i].content].Keys == rotated.Keys + {rotations[i].p};
        Rotate(rotations[i].p, rotations[i].content);
      }
      assert rotations[..|rotations|] == rotations;
    }

    /**
     Any history: each day some logs are rotated, then a run with that day's age test goes
     over what is listed, dry or real, cut short or not. Every log ever rotated stays whole
     in the live tree or in the archive.
     */
    method Runs(days: seq<Day>)
      requires Safe() && Unused(rotated.Keys, days)
      modifies this
      ensures Safe() && rotated == AllGrown(old(rotated), days)
    {
      hide Safe; hide Grown; hide NewPaths;
      assert days[..0] == [] && days[0..] == days;
      for i := 0 to |days|
        invariant Safe() && rotated == AllGrown(old(rotated), days[..i])
        invariant Unused(rotated.Keys, days[i..])
      {
        assert days[i..][0] == days[i] && days[i..][1..] == days[i + 1..];
        assert days[..i + 1][..i] == days[..i];
        GrownKeys(rotated, days[i].rotations);
        RotateAll(days[i].rotations);
        var listing := Listing(logs.Keys);
        var c, finished := RunArchive(listing, days[i].eligible, days[i].dryRun);
      }
      assert days[..|days|] == days;
    }

    static method Listing(keys: set<Path>) returns (listing: seq<Path>)
      ensures forall p :: p in listing <==> p in keys
      ensures forall i, j :: 0 <= i < j < |listing| ==> listing[i] != listing[j]
    {
      listing := [];
      var rest := keys;
      while rest != {}
        invariant rest <= keys
        invariant forall p :: p in listing <==> p in keys && p !in rest
        invariant forall i, j :: 0 <= i < j < |listing| ==> listing[i] != listing[j]
        decreases |rest|
      {
        var p :| p in rest;
        listing := listing + [p];
        rest := rest - {p};
      }
    }
  }

  lemma OneRemoved(before: map<Path, Bytes>, after: map<Path, Bytes>, p: Path)
    requires p in before && SameExcept(p, after, before)
    ensures |after| == if p in after then |before| else |before| - 1
    ensures after.Keys <= before.Keys
    ensures forall q :: q in before && q != p ==> q in after
    ensures forall q :: q in after && q != p ==> after[q] == before[q]
  {
    assert after.Keys == if p in after then before.Keys else before.Keys - {p};
    assert |after| == |after.Keys| && |before| == |before.Keys|;
  }

  // ---- A history of rotations and runs ----

  datatype Rotation = Rotation(p: Path, content: Bytes)

  datatype Day = Day(rotations: seq<Rotation>, eligible: Path -> bool, dryRun: bool)

  /** Everything rotated so far, and then these. */
  function Grown(rotated: map<Path, Bytes>, rotations: seq<Rotation>): map<Path, Bytes> {
    if rotations == [] then rotated
    else
      var last := rotations[|rotations| - 1];
      Grown(rotated, rotations[..|rotations| - 1])[last.p := last.content]
  }

  function AllGrown(rotated: map<Path, Bytes>, days: seq<Day>): map<Path, Bytes> {
    if days == [] then rotated
    else Grown(AllGrown(rotated, days[..|days| - 1]), days[|days| - 1].rotations)
  }

  /** A rotated log has a path of its own. */
  predicate NewPaths(used: set<Path>, rotations: seq<Rotation>)
    decreases |rotations|
  {
    rotations != [] ==> rotations[0].p !in used && NewPaths(used + {rotations[0].p}, rotations[1..])
  }

  predicate Unused(used: set<Path>, days: seq<Day>)
    decreases |days|
  {
    days != [] ==>
      && NewPaths(used, days[0].rotations)
      && Unused(used + (set r | r in days[0].rotations :: r.p), days[1..])
  }

  lemma {:induction false} GrownKeys(rotated: map<Path, Bytes>, rotations: seq<Rotation>)
    ensures Grown(rotated, rotations).Keys == rotated.Keys + set r | r in rotations :: r.p
  {
    if rotations != [] {
      var init, last := rotations[..|rotations| - 1], rotations[|rotations| - 1];
      GrownKeys(rotated, init);
      assert rotations == init + [last];
      assert forall r :: r in rotations <==> r in init || r == last;
    }
  }

  lemma GrownInOrder(rotated: map<Path, Bytes>, rotations: seq<Rotation>, i: nat)
    ensures rotations[..0] == [] && Grown(rotated, []) == rotated
    ensures i < |rotations| ==>
      Grown(rotated, rotations[..i + 1]) == Grown(rotated, rotations[..i])[rotations[i].p := rotations[i].content]
  {
    if i < |rotations| {
      assert rotations[..i + 1][..i] == rotations[..i];
    }
  }
}
