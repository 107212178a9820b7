/** What a sender's checksums have to say for its own comparison to succeed. */
module SenderChecksums {
  import opened Wire
  import opened PartsExchange

  function Sent(d: StoredFile, remote: bool): string {
    if remote then d.metadata else d.content
  }

  function SumOf(d: StoredFile, remote: bool, h: Hashes): Checksum {
    Checksum(|Sent(d, remote)|, h.file(Sent(d, remote)))
  }

  ghost predicate DifferentNames(projections: seq<Projection>) {
    forall i, j :: 0 <= i < j < |projections| ==> projections[i].name != projections[j].name
  }

  /** What the projections enter: totals of those that are sent, and the part's own values for the others. */
  lemma {:induction false} ProjectionSumsOthers(
    projections: seq<Projection>, own: Checksums, h: Hashes, version: int, remote: bool, send: bool, sums: Checksums, name: string)
    requires send ==> forall q :: q in projections ==> q.name + ".proj" != name
    requires name in sums ==> name in own && sums[name] == own[name] && IsProjectionEntry(name)
    ensures
      var r := SenderProjectionSums(projections, own, h, version, remote, send, sums);
      name in r ==> name in own && r[name] == own[name] && IsProjectionEntry(name)
    decreases |projections|
  {
    hide SenderSums, IsProjectionEntry;
    if projections != [] {
      var q := projections[0];
      EntriesDiffer(q.name, q.name);
      ProjectionSumsOthers(projections[1..], own, h, version, remote, send, WithEntry(q, own, h, version, remote, send, sums), name);
    }
  }

  lemma {:induction false} ProjectionSumsLast(
    projections: seq<Projection>, own: Checksums, h: Hashes, version: int, remote: bool, sums: Checksums, name: string)
    requires (forall q :: q in projections ==> q.name + ".proj" != name) && name in sums
    ensures
      var r := SenderProjectionSums(projections, own, h, version, remote, true, sums);
      name in r && r[name] == sums[name]
    decreases |projections|
  {
    hide SenderSums;
    if projections != [] {
      ProjectionSumsLast(projections[1..], own, h, version, remote, WithEntry(projections[0], own, h, version, remote, true, sums), name);
    }
  }

  lemma {:induction false} ProjectionSumsSent(
    projections: seq<Projection>, own: Checksums, h: Hashes, version: int, remote: bool, sums: Checksums, i: nat)
    requires i < |projections| && DifferentNames(projections)
    ensures
      var r, entry := SenderProjectionSums(projections, own, h, version, remote, true, sums), projections[i].name + ".proj";
      entry in r && r[entry] == h.total(SenderSums(projections[i].part, h, version, remote, false))
    decreases |projections|
  {
    hide SenderSums;
    var q, rest := projections[0], projections[1..];
    var next := WithEntry(q, own, h, version, remote, true, sums);
    if i == 0 {
      forall p | p in rest ensures p.name + ".proj" != q.name + ".proj" {
        EntriesDiffer(p.name, q.name);
      }
      ProjectionSumsLast(rest, own, h, version, remote, next, q.name + ".proj");
    } else {
      ProjectionSumsSent(rest, own, h, version, remote, next, i - 1);
    }
  }

  lemma FixedAreNoEntries(p: Part, name: string)
    requires name in FileNamesWithoutChecksums(p)
    ensures !IsProjectionEntry(name)
  {
    hide IsProjectionEntry, Names;
    FixedNamesAreNoEntries();
  }

  /** The entry of a projection that is sent is the total of what is sent of it; other projection entries are the part's own. */
  lemma EntrySums(p: Part, h: Hashes, version: int, remote: bool, send: bool, entry: string)
    requires IsProjectionEntry(entry) && (send ==> DifferentNames(p.projections))
    ensures
      var r := SenderSums(p, h, version, remote, send);
      && (forall q :: send && q in p.projections && entry == q.name + ".proj" ==>
            entry in r && r[entry] == h.total(SenderSums(q.part, h, version, remote, false)))
      && ((forall q :: send && q in p.projections ==> entry != q.name + ".proj") ==>
            (entry in r <==> entry in p.checksums) && (entry in r ==> r[entry] == p.checksums[entry]))
  {
    hide SentFiles, FileNamesWithoutChecksums, IsProjectionEntry, AddFiles, SenderProjectionSums;
    var files, skipped := SentFiles(p, version, remote), FileNamesWithoutChecksums(p);
    var fromProjections := SenderProjectionSums(p.projections, p.checksums, h, version, remote, send, map[]);
    NoEntrySent(p, version, remote);
    AddFilesAt(files, skipped, h, AddUnlisted(p.checksums, fromProjections), entry);
    forall q | send && q in p.projections && entry == q.name + ".proj"
      ensures entry in fromProjections && fromProjections[entry] == h.total(SenderSums(q.part, h, version, remote, false))
    {
      var i :| 0 <= i < |p.projections| && p.projections[i] == q;
      ProjectionSumsSent(p.projections, p.checksums, h, version, remote, map[], i);
    }
    if forall q :: send && q in p.projections ==> entry != q.name + ".proj" {
      ProjectionSumsOthers(p.projections, p.checksums, h, version, remote, send, map[], entry);
    }
  }

  /** Of the files, those are summed up that have a checksum and none of the fixed names. */
  lemma FileSums(p: Part, h: Hashes, version: int, remote: bool, send: bool, name: string)
    requires ValidDisk(p.disk) && !IsProjectionEntry(name)
    ensures
      var r := SenderSums(p, h, version, remote, send);
      && (name in r <==> name in p.checksums && name !in FileNamesWithoutChecksums(p) && name in Names(p.disk))
      && (forall d :: d in p.disk && d.name == name && name in r ==> r[name] == SumOf(d, remote, h))
  {
    hide FileNamesWithoutChecksums, IsProjectionEntry, AddFiles, SenderProjectionSums;
    var files, skipped := SentFiles(p, version, remote), FileNamesWithoutChecksums(p);
    var fromProjections := SenderProjectionSums(p.projections, p.checksums, h, version, remote, send, map[]);
    ProjectionSumsAreEntries(p.projections, p.checksums, h, version, remote, send, map[]);
    var sums := AddUnlisted(p.checksums, fromProjections);
    assert name !in sums;
    AddFilesMeans(files, skipped, h, sums, name) by {
      DescribedDistinct(p.disk, FilesToReplicate(p, version), remote);
    }
    forall f | f in files && f.name == name ensures name in Names(p.disk) && (name in skipped || name in p.checksums) {
      var d :| d in p.disk && f == File(d.name, Sent(d, remote));
    }
    forall d | d in p.disk && d.name == name && name in p.checksums ensures File(name, Sent(d, remote)) in files {
      DescribedHas(p.disk, FilesToReplicate(p, version), remote, d);
    }
  }

  /** The checksums describe the files with their sizes and hashes, and name none of the fixed files. */
  ghost predicate DescribesFiles(p: Part, h: Hashes, remote: bool) {
    forall name :: name in p.checksums && !IsProjectionEntry(name) ==>
      && name !in FileNamesWithoutChecksums(p)
      && exists d :: d in p.disk && d.name == name && p.checksums[name] == SumOf(d, remote, h)
  }

  /** And they have the total of every projection. */
  ghost predicate DescribesProjections(p: Part, h: Hashes, version: int, remote: bool) {
    forall q :: q in p.projections ==>
      q.name + ".proj" in p.checksums && p.checksums[q.name + ".proj"] == h.total(SenderSums(q.part, h, version, remote, false))
  }

  lemma DescribedAgree(p: Part, h: Hashes, version: int, remote: bool, send: bool, name: string)
    requires ValidDisk(p.disk) && (send ==> DifferentNames(p.projections))
    requires DescribesFiles(p, h, remote) && (send ==> DescribesProjections(p, h, version, remote))
    ensures name in p.checksums <==> name in SenderSums(p, h, version, remote, send)
    ensures name in p.checksums ==> p.checksums[name] == SenderSums(p, h, version, remote, send)[name]
  {
    hide SenderSums, SumOf, FileNamesWithoutChecksums, IsProjectionEntry, ValidDisk, DifferentNames;
    if IsProjectionEntry(name) {
      EntrySums(p, h, version, remote, send, name);
    } else {
      FileSums(p, h, version, remote, send, name);
    }
  }

  /** The sender finds its checksums confirmed if and only if they describe its files and, where projections are sent, these. */
  lemma ConfirmedExactly(p: Part, h: Hashes, version: int, remote: bool, send: bool)
    requires ValidDisk(p.disk) && (send ==> DifferentNames(p.projections))
    ensures p.checksums == SenderSums(p, h, version, remote, send)
       <==> DescribesFiles(p, h, remote) && (send ==> DescribesProjections(p, h, version, remote))
  {
    hide SenderSums, SumOf, FileNamesWithoutChecksums, IsProjectionEntry, ValidDisk, DifferentNames;
    var r := SenderSums(p, h, version, remote, send);
    if DescribesFiles(p, h, remote) && (send ==> DescribesProjections(p, h, version, remote)) {
      forall name: string
        ensures name in p.checksums <==> name in r
        ensures name in p.checksums ==> p.checksums[name] == r[name]
      {
        DescribedAgree(p, h, version, remote, send, name);
      }
      assert p.checksums == r;
    } else if p.checksums == r {
      forall name | name in p.checksums && !IsProjectionEntry(name)
        ensures name !in FileNamesWithoutChecksums(p)
        ensures exists d :: d in p.disk && d.name == name && p.checksums[name] == SumOf(d, remote, h)
      {
        FileSums(p, h, version, remote, send, name);
      }
      if send {
        forall q | q in p.projections
          ensures q.name + ".proj" in p.checksums && p.checksums[q.name + ".proj"] == h.total(SenderSums(q.part, h, version, remote, false))
        {
          EntriesDiffer(q.name, q.name);
          EntrySums(p, h, version, remote, send, q.name + ".proj");
        }
      }
      assert false;
    }
  }

  ghost predicate HasFiles(p: Part) {
    forall name :: MustExist(p, name) ==> name in Names(p.disk)
  }

  lemma FilesComplete(p: Part, version: int)
    ensures HasFiles(p) <==> Complete(p, version)
  {
    CompleteMeans(p, version);
  }

  /** All files are there and, unless only metadata is sent, the checksums describe them. */
  ghost predicate Sendable(p: Part, h: Hashes, remote: bool, full: bool) {
    HasFiles(p) && (!remote && full ==> DescribesFiles(p, h, remote))
  }

  /** When a part is sent without an error: it and every projection that goes with it have all files and checksums that
      describe them, and the part has the total of every projection. */
  lemma SucceedsExactly(p: Part, h: Hashes, version: int, remote: bool, send: bool, full: bool)
    requires ValidPart(p)
    ensures SenderSucceeds(p, h, version, remote, send, full)
       <==> && Sendable(p, h, remote, full)
            && (send ==> forall q :: q in p.projections ==> Sendable(q.part, h, remote, full))
            && (send && !remote && full ==> DescribesProjections(p, h, version, remote))
  {
    hide SenderSums, DescribesFiles, DescribesProjections, Complete, HasFiles, ValidDisk;
    forall q | q in p.projections
      ensures SenderSucceeds(q.part, h, version, remote, false, full) <==> Sendable(q.part, h, remote, full)
    {
      assert ValidProjection(q.part);
      FilesComplete(q.part, version);
      ConfirmedExactly(q.part, h, version, remote, false);
    }
    FilesComplete(p, version);
    ConfirmedExactly(p, h, version, remote, send);
  }
}
