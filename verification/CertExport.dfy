/** Installing the certificate, its key and a health record as three files, one rename at a time
    (runtime/internal/certsync/export.go). */
module CertExport {
  import opened Wrappers
  import opened CertDiscovery

  const MAXIMUM_HEALTH_SIZE := 4096
  const EXPORT_MODE := 0x1A0 // octal 640

  /** The names in the output directory. */
  datatype Name = FullChain | PrivateKey | HealthRecord | Temporary(id: nat) | Elsewhere(name: string)

  type Directory = map<Name, File>

  /** What an export is to install. */
  datatype Trio = Trio(certificate: string, privateKey: string, health: string)

  const DESTINATIONS := [FullChain, PrivateKey, HealthRecord]

  function Contents(t: Trio): seq<string> {
    [t.certificate, t.privateKey, t.health]
  }

  function Exported(content: string): File {
    File(content, true, EXPORT_MODE)
  }

  predicate ValidPair(f: Formats, pair: Pair) {
    && pair.certificate != "" && pair.privateKey != ""
    && f.pairs(pair.certificate, pair.privateKey)
    && f.leaf(pair.certificate).Some?
    && Some(pair.address) in f.leaf(pair.certificate).value.addresses
  }

  function HealthOf(f: Formats, pair: Pair): Health
    requires ValidPair(f, pair)
  {
    var leaf := f.leaf(pair.certificate).value;
    Health(Some(pair.address), leaf.notAfter, f.fingerprint(leaf.raw))
  }

  function TrioOf(f: Formats, pair: Pair): Trio
    requires ValidPair(f, pair)
  {
    Trio(pair.certificate, pair.privateKey, f.encode(HealthOf(f, pair)))
  }

  // The first `k` destinations hold their new files, the others what they held before.
  ghost predicate Installed(before: Directory, after: Directory, t: Trio, k: nat)
    requires k <= 3
  {
    forall i :: 0 <= i < 3 ==>
      ValueAt(after, DESTINATIONS[i]) ==
        if i < k then Some(Exported(Contents(t)[i])) else ValueAt(before, DESTINATIONS[i])
  }

  // Nothing but temporary files has changed.
  ghost predicate OnlyTemporaries(before: Directory, after: Directory) {
    forall n: Name :: !n.Temporary? ==> ValueAt(after, n) == ValueAt(before, n)
  }

  // Files that are no destination of the export are never touched.
  ghost predicate OthersKept(before: Directory, after: Directory) {
    forall n: Name :: n.Elsewhere? ==> ValueAt(after, n) == ValueAt(before, n)
  }

  /** Done: returned without an error. Failed: returned with one. Stopped: the process died there. */
  datatype Outcome = Done | Failed | Stopped

  /** The calls of an export that can fail, each one system call or a few that fail alike. */
  datatype Step = MakeDirectory | StageStep | RenameStep(destination: Name) | SyncDirectory | RemoveStep

  // The calls of an export that returns without an error and had something to do, up to the clean-up: the
  // directory is synced before the record is renamed, and again afterwards.
  const STEPS := [
    MakeDirectory, StageStep, StageStep, StageStep, RenameStep(FullChain), RenameStep(PrivateKey), SyncDirectory,
    RenameStep(HealthRecord), SyncDirectory ]

  /** How a running export has changed the directory so far: its states in order, and how many of the
      new files each of them has. */
  datatype Course = Course(moments: seq<Directory>, stages: seq<nat>)

  ghost predicate StageAt(c: Course, before: Directory, t: Trio, i: int)
    requires 0 <= i < |c.moments| == |c.stages|
  {
    c.stages[i] <= 3 && Installed(before, c.moments[i], t, c.stages[i])
  }

  // Every state has a prefix of the new files over the old ones, and the prefix never gets shorter.
  ghost predicate Advances(c: Course, before: Directory, t: Trio) {
    && |c.moments| == |c.stages|
    && (forall i {:trigger StageAt(c, before, t, i)} :: 0 <= i < |c.moments| ==> StageAt(c, before, t, i))
    && (forall i, j :: 0 <= i <= j < |c.stages| ==> c.stages[i] <= c.stages[j])
  }

  function Further(c: Course, d: Directory, k: nat): Course {
    Course(c.moments + [d], c.stages + [k])
  }

  lemma FurtherAdvances(c: Course, before: Directory, t: Trio, d: Directory, k: nat)
    requires Advances(c, before, t) && k <= 3 && Installed(before, d, t, k)
    requires c.stages != [] ==> c.stages[|c.stages| - 1] <= k
    ensures Advances(Further(c, d, k), before, t)
  {
    var c' := Further(c, d, k);
    forall i | 0 <= i < |c'.moments| ensures StageAt(c', before, t, i) {
      if i < |c.moments| { assert StageAt(c, before, t, i); }
    }
  }

  class Exporter {
    var files: Directory
    // How many calls have failed or were cut off.
    var failures: nat
    // The calls and the states since the latest export began.
    ghost var steps: seq<Step>
    ghost var course: Course

    constructor (files: Directory)
      ensures this.files == files
    {
      this.files, failures, steps, course := files, 0, [], Course([], []);
    }

    // The course has led to the current files, `k` of which are new.
    ghost predicate Reached(before: Directory, t: Trio, k: nat)
      reads this`files, this`course
    {
      && k <= 3 && Advances(course, before, t) && Installed(before, files, t, k)
      && course.moments != [] && course.moments[|course.moments| - 1] == files
      && course.stages[|course.stages| - 1] == k
    }

    // How the next call ends.
    method Call(ghost step: Step) returns (outcome: Outcome)
      modifies this`failures, this`steps
      ensures failures == old(failures) + if outcome.Done? then 0 else 1
      ensures steps == old(steps) + [step]
    {
      outcome := *;
      if !outcome.Done? { failures := failures + 1; }
      steps := steps + [step];
    }

    predicate Matches(t: Trio)
      reads this`files
    {
      forall i | 0 <= i < 3 ::
        && DESTINATIONS[i] in files && files[DESTINATIONS[i]].mode == EXPORT_MODE
        && ReadRegular(files, DESTINATIONS[i], MAXIMUM_PEM_SIZE) == Some(Contents(t)[i])
    }

    // The directory changes in one step.
    method Change(files': Directory, ghost before: Directory, ghost t: Trio, ghost k: nat, ghost k': nat)
      requires Reached(before, t, k) && k <= k' <= 3 && Installed(before, files', t, k')
      modifies this`files, this`course
      ensures files == files' && Reached(before, t, k')
    {
      FurtherAdvances(course, before, t, files', k');
      files, course := files', Further(course, files', k');
    }

    // A temporary file on which the work was broken off is left behind in part.
    method Abandon(name: Name, content: string, ghost before: Directory, ghost t: Trio, ghost k: nat)
      requires Reached(before, t, k) && name.Temporary?
      modifies this`files, this`course
      ensures OnlyTemporaries(old(files), files) && Reached(before, t, k)
    {
      var written: int, mode: nat := *, *;
      if 0 <= written <= |content| {
        Change(files[name := File(content[..written], true, mode)], before, t, k, k);
      }
    }

    // A name nobody uses; not finding one is one way in which the call fails.
    method CreateTemp() returns (outcome: Outcome, staged: Name)
      modifies this`failures, this`steps
      ensures staged.Temporary? && (outcome.Done? ==> staged !in files)
      ensures failures == old(failures) + if outcome.Done? then 0 else 1
      ensures steps == old(steps) + [StageStep]
    {
      var id: int := *;
      staged := Temporary(if id >= 0 then id else 0);
      outcome := Call(StageStep);
      if outcome.Done? && staged in files { outcome, failures := Failed, failures + 1; }
    }

    // Writes a new temporary file. When it fails or dies meanwhile, part of it may be left: the error of
    // its removal is ignored.
    method StageFile(content: string, ghost before: Directory, ghost t: Trio) returns (outcome: Outcome, staged: Name)
      requires Reached(before, t, 0)
      modifies this
      ensures OnlyTemporaries(old(files), files) && Reached(before, t, 0)
      ensures outcome.Done? ==>
                staged.Temporary? && staged !in old(files) && files == old(files)[staged := Exported(content)]
      ensures outcome.Done? ==> failures == old(failures) && steps == old(steps) + [StageStep]
      ensures !outcome.Done? ==> failures > old(failures)
    {
      outcome, staged := CreateTemp();
      if outcome.Done? {
        Change(files[staged := Exported(content)], before, t, 0, 0);
      } else if staged !in files {
        var removed := Call(RemoveStep);
        if !removed.Done? { Abandon(staged, content, before, t, 0); }
      }
    }

    // The deferred removal; its errors are ignored.
    method Cleanup(staged: seq<Name>, ghost before: Directory, ghost t: Trio, ghost k: nat)
      requires Reached(before, t, k) && forall n :: n in staged ==> n.Temporary?
      modifies this
      ensures OnlyTemporaries(old(files), files) && Reached(before, t, k)
      ensures failures >= old(failures) && old(steps) <= steps
    {
      for i := 0 to |staged|
        invariant OnlyTemporaries(old(files), files) && Reached(before, t, k)
        invariant failures >= old(failures) && old(steps) <= steps
      {
        var outcome := Call(RemoveStep);
        assert staged[i] in staged;
        if outcome.Done? { Change(files - {staged[i]}, before, t, k, k); }
      }
    }

    // The staged files are there, each under a name of its own.
    ghost predicate Ready(t: Trio, staged: seq<Name>, from: nat)
      reads this`files
    {
      && |staged| <= 3
      && (forall i :: 0 <= i < |staged| ==> staged[i].Temporary?)
      && (forall i, j :: 0 <= i < j < |staged| ==> staged[i] != staged[j])
      && (forall i :: from <= i < |staged| ==>
            staged[i] in files && files[staged[i]] == Exported(Contents(t)[i]))
    }

    method Stage(t: Trio, ghost before: Directory) returns (outcome: Outcome, staged: seq<Name>)
      requires Reached(before, t, 0)
      modifies this
      ensures OnlyTemporaries(old(files), files) && Reached(before, t, 0)
      ensures forall n :: n in staged ==> n.Temporary?
      ensures outcome.Done? ==> |staged| == 3 && Ready(t, staged, 0)
      ensures outcome.Done? ==> failures == old(failures) && steps == old(steps) + [StageStep, StageStep, StageStep]
      ensures !outcome.Done? ==> failures > old(failures)
    {
      staged := [];
      outcome := Done;
      for i := 0 to 3
        invariant OnlyTemporaries(old(files), files) && Reached(before, t, 0)
        invariant outcome.Done? && |staged| == i && Ready(t, staged, 0) && failures == old(failures)
        invariant steps == old(steps) + [StageStep, StageStep, StageStep][..i]
      {
        var name;
        outcome, name := StageFile(Contents(t)[i], before, t);
        if !outcome.Done? { return; }
        staged := staged + [name];
      }
    }

    // What one rename makes of the directory.
    function Renamed(staged: Name, destination: Name): Directory
      requires staged in files
      reads this`files
    {
      (files - {staged})[destination := files[staged]]
    }

    // One rename of the sequence: it replaces the destination in one step, or not at all.
    method Move(ghost before: Directory, t: Trio, staged: seq<Name>, i: nat) returns (outcome: Outcome, ghost moved: nat)
      requires i < 3 && |staged| == 3 && Ready(t, staged, i)
      requires Reached(before, t, i) && OthersKept(before, files)
      modifies this
      ensures i <= moved <= i + 1 && Reached(before, t, moved) && OthersKept(before, files)
      ensures outcome.Done? ==> moved == i + 1 && Ready(t, staged, i + 1)
      ensures failures == old(failures) + if outcome.Done? then 0 else 1
      ensures steps == old(steps) + [RenameStep(DESTINATIONS[i])]
    {
      outcome := Call(RenameStep(DESTINATIONS[i]));
      moved := i;
      var moves: bool := *;
      if outcome.Done? || (outcome.Stopped? && moves) {
        moved := i + 1;
        Change(Renamed(staged[i], DESTINATIONS[i]), before, t, i, i + 1);
      }
    }

    // Certificate and key, then the directory is synced, then the health record.
    method Install(ghost before: Directory, t: Trio, staged: seq<Name>) returns (outcome: Outcome, ghost installed: nat)
      requires |staged| == 3 && Ready(t, staged, 0)
      requires Reached(before, t, 0) && OthersKept(before, files)
      modifies this
      ensures Reached(before, t, installed) && OthersKept(before, files)
      ensures outcome.Done? ==> installed == 3
      ensures failures == old(failures) + if outcome.Done? then 0 else 1
      ensures outcome.Done? ==> steps == old(steps) + STEPS[4..]
    {
      outcome, installed := Move(before, t, staged, 0);
      if !outcome.Done? { return; }
      outcome, installed := Move(before, t, staged, 1);
      if !outcome.Done? { return; }
      outcome := Call(SyncDirectory);
      if !outcome.Done? { return; }
      outcome, installed := Move(before, t, staged, 2);
      if !outcome.Done? { return; }
      outcome := Call(SyncDirectory);
    }

    /** Whatever stops the export and wherever, the destinations are a prefix of the new files followed
        by what was there before, at every moment on the way there, and no other file has changed. A
        return without an error means all three are new, whatever state the export started from, and
        comes whenever the pair is valid and no call fails. If all three were new already, nothing is
        written. */
    method Export(f: Formats, pair: Pair) returns (outcome: Outcome, ghost installed: nat)
      modifies this
      ensures OthersKept(old(files), files)
      ensures !ValidPair(f, pair) ==> outcome.Failed? && files == old(files)
      ensures ValidPair(f, pair) ==> installed <= 3 && Installed(old(files), files, TrioOf(f, pair), installed)
      ensures ValidPair(f, pair) ==> Advances(course, old(files), TrioOf(f, pair))
      ensures outcome.Done? ==> ValidPair(f, pair) && installed == 3
      ensures ValidPair(f, pair) && failures == old(failures) ==> outcome.Done?
      ensures ValidPair(f, pair) && old(Matches(TrioOf(f, pair))) ==> files == old(files)
      ensures outcome.Done? ==> steps == STEPS[..1] || STEPS <= steps
      ensures outcome.Done? && steps == STEPS[..1] ==> files == old(files)
    {
      installed, steps := 0, [];
      if !ValidPair(f, pair) { return Failed, 0; }
      var t := TrioOf(f, pair);
      course := Course([files], [0]);
      assert Reached(old(files), t, 0) by { assert StageAt(course, old(files), t, 0); }
      // The output directory is created.
      outcome := Call(MakeDirectory);
      if !outcome.Done? { return; }
      if Matches(t) {
        MatchesInstalled(t);
        return Done, 3;
      }
      var staged;
      outcome, staged := Stage(t, old(files));
      if outcome.Done? {
        outcome, installed := Install(old(files), t, staged);
      }
      if !outcome.Stopped? { Cleanup(staged, old(files), t, installed); }
    }

    lemma MatchesInstalled(t: Trio)
      requires Matches(t)
      ensures Installed(files, files, t, 3)
    {
      forall i | 0 <= i < 3 ensures ValueAt(files, DESTINATIONS[i]) == Some(Exported(Contents(t)[i])) {
        assert DESTINATIONS[i] in files && files[DESTINATIONS[i]].mode == EXPORT_MODE;
      }
    }
  }

  // ---- the reader ----

  // The three files as they were read: the record first, then the certificate, then the key.
  datatype Reading = Reading(record: Option<string>, certificate: Option<string>, privateKey: Option<string>)

  function ReadRecord(d: Directory): Option<string> {
    ReadRegular(d, HealthRecord, MAXIMUM_HEALTH_SIZE)
  }

  function ReadCertificate(d: Directory): Option<string> {
    ReadRegular(d, FullChain, MAXIMUM_PEM_SIZE)
  }

  function ReadKey(d: Directory): Option<string> {
    ReadRegular(d, PrivateKey, MAXIMUM_PEM_SIZE)
  }

  predicate Accepts(f: Formats, r: Reading, now: int, minimumValidity: int) {
    && minimumValidity > 0
    && r.record.Some? && f.decode(r.record.value).Some?
    && var health := f.decode(r.record.value).value;
       && health.address.Some? && health.fingerprint != ""
       && r.certificate.Some? && r.privateKey.Some? && f.pairs(r.certificate.value, r.privateKey.value)
       && f.leaf(r.certificate.value).Some?
       && var leaf := f.leaf(r.certificate.value).value;
          && CertificateMatches(leaf, health.address.value, now, minimumValidity)
          && health.fingerprint == f.fingerprint(leaf.raw) && health.notAfter == leaf.notAfter
  }

  /** Whether the three files are one healthy whole, while nobody changes them. */
  predicate CheckHealth(f: Formats, d: Directory, now: int, minimumValidity: int) {
    Accepts(f, Reading(ReadRecord(d), ReadCertificate(d), ReadKey(d)), now, minimumValidity)
  }

  /** What a healthy answer tells: the key belongs to the certificate, which is of the recorded address,
      valid now and for as long as asked, and the one whose fingerprint and end the record names. */
  lemma HealthyMeans(f: Formats, d: Directory, now: int, minimumValidity: int)
    requires CheckHealth(f, d, now, minimumValidity)
    ensures minimumValidity > 0
    ensures ReadRecord(d).Some? && ReadCertificate(d).Some? && ReadKey(d).Some?
    ensures f.pairs(ReadCertificate(d).value, ReadKey(d).value)
    ensures f.decode(ReadRecord(d).value).Some? && f.leaf(ReadCertificate(d).value).Some?
    ensures var health, leaf := f.decode(ReadRecord(d).value).value, f.leaf(ReadCertificate(d).value).value;
            && health.address.Some? && health.address in leaf.addresses
            && leaf.notBefore <= now && now + minimumValidity <= leaf.notAfter == health.notAfter
            && f.fingerprint(leaf.raw) == health.fingerprint != ""
  {
  }

  // What is assumed of the codec and the digest: a record survives, and a fingerprint is never empty.
  ghost predicate Sound(f: Formats) {
    && (forall h {:trigger f.encode(h)} :: f.decode(f.encode(h)) == Some(h))
    && (forall raw :: f.fingerprint(raw) != "")
  }

  // Everything the reader bounds is within its bounds.
  predicate ReadableTrio(t: Trio) {
    && 0 < |t.certificate| <= MAXIMUM_PEM_SIZE && 0 < |t.privateKey| <= MAXIMUM_PEM_SIZE
    && 0 < |t.health| <= MAXIMUM_HEALTH_SIZE
  }

  /** A trio that is complete and fits together is healthy exactly while its certificate is valid for
      long enough. */
  lemma NewTrioHealth(f: Formats, before: Directory, after: Directory, pair: Pair, now: int, minimumValidity: int)
    requires Sound(f) && ValidPair(f, pair) && Installed(before, after, TrioOf(f, pair), 3)
    requires ReadableTrio(TrioOf(f, pair))
    ensures CheckHealth(f, after, now, minimumValidity) <==>
              minimumValidity > 0
              && CertificateMatches(f.leaf(pair.certificate).value, pair.address, now, minimumValidity)
  {
    var t := TrioOf(f, pair);
    assert ValueAt(after, DESTINATIONS[0]) == Some(Exported(t.certificate));
    assert ValueAt(after, DESTINATIONS[1]) == Some(Exported(t.privateKey));
    assert ValueAt(after, DESTINATIONS[2]) == Some(Exported(t.health));
    assert f.decode(t.health) == Some(HealthOf(f, pair));
  }

  /** A pair that was just discovered, once exported, is healthy at the same moment. */
  lemma DiscoveredIsHealthy(s: Search, i: nat, before: Directory, after: Directory)
    requires Sound(s.f) && i < |s.walk| && At(s, i).Some? && s.minimumValidity > 0
    ensures ValidPair(s.f, At(s, i).value)
    ensures var t := TrioOf(s.f, At(s, i).value);
            0 < |t.health| <= MAXIMUM_HEALTH_SIZE && Installed(before, after, t, 3) ==>
              CheckHealth(s.f, after, s.now, s.minimumValidity)
  {
    FoundIsGood(s, i);
    var t := TrioOf(s.f, At(s, i).value);
    if 0 < |t.health| <= MAXIMUM_HEALTH_SIZE && Installed(before, after, t, 3) {
      NewTrioHealth(s.f, before, after, At(s, i).value, s.now, s.minimumValidity);
    }
  }

  ghost predicate SameTrio(d: Directory, e: Directory) {
    forall i :: 0 <= i < 3 ==> ValueAt(d, DESTINATIONS[i]) == ValueAt(e, DESTINATIONS[i])
  }

  // The fingerprint the stored record names.
  function RecordedFingerprint(f: Formats, d: Directory): Option<string> {
    var record := ReadRecord(d);
    if record.Some? && f.decode(record.value).Some? then Some(f.decode(record.value).value.fingerprint) else None
  }

  // The record in the directory is not one of the pair's certificate.
  predicate OtherCertificate(f: Formats, d: Directory, pair: Pair)
    requires ValidPair(f, pair)
  {
    RecordedFingerprint(f, d) != Some(f.fingerprint(f.leaf(pair.certificate).value.raw))
  }

  // The record is read from `d`, the certificate from `e`, the key from `g`.
  function ReadFrom(d: Directory, e: Directory, g: Directory): Reading {
    Reading(ReadRecord(d), ReadCertificate(e), ReadKey(g))
  }

  /** An export runs while the three files are read one after the other, with any of its renames in
      between, over whatever was there before. What is accepted is the new trio, or the old record with
      the old certificate and a key that belongs to it: never a record and a certificate of different
      trios. */
  lemma ReadDuringExport(f: Formats, before: Directory, pair: Pair, c: Course, i: nat, j: nat, k: nat,
                         now: int, minimumValidity: int)
    requires ValidPair(f, pair) && Advances(c, before, TrioOf(f, pair)) && i <= j <= k < |c.moments|
    requires OtherCertificate(f, before, pair)
    requires Accepts(f, ReadFrom(c.moments[i], c.moments[j], c.moments[k]), now, minimumValidity)
    ensures var r, t := ReadFrom(c.moments[i], c.moments[j], c.moments[k]), TrioOf(f, pair);
            || r == Reading(Some(t.health), Some(t.certificate), Some(t.privateKey))
            || (&& r.record == ReadRecord(before) && r.certificate == ReadCertificate(before)
                && r.privateKey in {ReadKey(before), Some(t.privateKey)})
  {
    var t := TrioOf(f, pair);
    assert StageAt(c, before, t, i) && StageAt(c, before, t, j) && StageAt(c, before, t, k);
    assert ValueAt(c.moments[i], DESTINATIONS[2]) ==
             if 2 < c.stages[i] then Some(Exported(t.health)) else ValueAt(before, DESTINATIONS[2]);
    assert ValueAt(c.moments[j], DESTINATIONS[0]) ==
             if 0 < c.stages[j] then Some(Exported(t.certificate)) else ValueAt(before, DESTINATIONS[0]);
    assert ValueAt(c.moments[k], DESTINATIONS[1]) ==
             if 1 < c.stages[k] then Some(Exported(t.privateKey)) else ValueAt(before, DESTINATIONS[1]);
  }

  /** An export that stops anywhere, over files whose record is of another certificate, leaves the old
      trio or the new one, or a mixture that is never healthy. */
  lemma MixtureIsUnhealthy(f: Formats, before: Directory, after: Directory, pair: Pair, k: nat,
                           now: int, minimumValidity: int)
    requires ValidPair(f, pair) && k <= 3 && Installed(before, after, TrioOf(f, pair), k)
    requires OtherCertificate(f, before, pair)
    requires CheckHealth(f, after, now, minimumValidity)
    ensures SameTrio(after, before) || Installed(before, after, TrioOf(f, pair), 3)
  {
    assert ValueAt(after, DESTINATIONS[0]) ==
             if 0 < k then Some(Exported(pair.certificate)) else ValueAt(before, DESTINATIONS[0]);
    assert k < 3 ==> ValueAt(after, DESTINATIONS[2]) == ValueAt(before, DESTINATIONS[2]);
  }
}
