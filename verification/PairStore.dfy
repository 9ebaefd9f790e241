/**
 The operations on a certificate pair, as crates/fah-certs/src/store.rs and api.rs run them.

 Every call into the file system may fail, unless the directory is `reliable`. The object
 records each disk operation it performs, and every state it passes through: a crash leaves
 the disk in one of those states. `Valid` therefore speaks of all of them.
 */
module PairStore {
  import opened Wrappers
  import opened PairDisk
  import opened PairRecovery

  /**
   A disk and its past: the keys it has held, `served` in a pair a server could use and `held`
   in the key file at all, and the files that each boot so far has met.
   */
  datatype View = View(disk: Disk, served: set<Key>, held: set<Key>, boots: seq<Disk>)

  predicate Archived(d: Disk, key: Key) {
    exists name | name in d.archives :: d.archives[name].key == Whole(key)
  }

  /**
   Files whose boot replaces `key` for good: the key file does not match its certificate, the
   staged key does, and no archive has the key. See `BootLosesKeyIff`.
   */
  predicate Exposed(d: Disk, key: Key) {
    d.key == Whole(key) && !Live(d) && Completable(d) && !Archived(d, key)
  }

  predicate MetExposed(boots: seq<Disk>, key: Key) {
    exists i | 0 <= i < |boots| :: Exposed(boots[i], key)
  }

  /**
   No private key is lost. A key that was ever served is in the live pair or complete in an
   archive; a key that was ever in the key file is still there or in an archive, unless some
   boot met files that expose it.
   */
  predicate Safe(v: View) {
    && (forall key | key in v.served :: (Live(v.disk) && v.disk.key == Whole(key)) || Archived(v.disk, key))
    && (forall key | key in v.held :: v.disk.key == Whole(key) || Archived(v.disk, key) || MetExposed(v.boots, key))
    && (Live(v.disk) ==> v.disk.key.content in v.served)
    && (v.disk.key.Whole? ==> v.disk.key.content in v.held)
    && |v.disk.archives| <= MAX_ARCHIVES
  }

  function Next(v: View, op: Op): View {
    Moved(v, Perform(v.disk, op))
  }

  /** The view once the disk has become `d`. */
  function Moved(v: View, d: Disk): View {
    View(d, v.served + ServedKeys(d), v.held + HeldKeys(d), v.boots)
  }

  function ServedKeys(d: Disk): set<Key> {
    if Live(d) then {d.key.content} else {}
  }

  function HeldKeys(d: Disk): set<Key> {
    if d.key.Whole? then {d.key.content} else {}
  }

  /** No archive is overwritten or removed. */
  predicate Intact(before: map<Name, Archive>, after: map<Name, Archive>) {
    forall name | name in before :: name in after && after[name] == before[name]
  }

  /** Nothing on record in `before` has been dropped, and its archives are as they were. */
  predicate Remembers(before: View, after: View) {
    && before.served <= after.served && before.held <= after.held && before.boots <= after.boots
    && Intact(before.disk.archives, after.disk.archives)
  }

  lemma NextRemembers(first: View, v: View, op: Op)
    requires Remembers(first, v) && Intact(first.disk.archives, Perform(v.disk, op).archives)
    ensures Next(v, op).disk == Perform(v.disk, op) && Remembers(first, Next(v, op))
  {
    hide Perform, Live, Archived, Intact;
  }

  /** A disk nothing is known about yet. */
  function FirstView(d: Disk): (v: View)
    ensures |d.archives| <= MAX_ARCHIVES ==> Safe(v)
  {
    View(d, ServedKeys(d), HeldKeys(d), [])
  }

  /** The live key, if it is whole, has a copy in an archive. */
  predicate KeyArchived(d: Disk) {
    d.key.Whole? ==> Archived(d, d.key.content)
  }

  // ---------- Which operations are safe ----------

  predicate ArchiveOp(op: Op) {
    || op.MakeArchive? || op.DropArchive?
    || op.TearArchiveCert? || op.CopyToArchiveCert? || op.TearArchiveKey? || op.CopyToArchiveKey?
  }

  /** The operations on the two live files. */
  predicate LiveOp(op: Op) {
    || op.DropCert? || op.TearCert? || op.RestoreCert? || op.RenameCert?
    || op.TearKey? || op.RestoreKey? || op.RenameKey?
  }

  lemma StagingMoves(d: Disk, op: Op)
    requires Aside(op) && !ArchiveOp(op)
    ensures var d' := Perform(d, op); d'.cert == d.cert && d'.key == d.key && d'.archives == d.archives
  {
  }

  lemma LiveKeysAreOnRecord(v: View)
    requires Safe(v)
    ensures ServedKeys(v.disk) <= v.served && HeldKeys(v.disk) <= v.held
  {
    hide Archived, Live;
  }

  lemma MovedStill(v: View, d: Disk)
    requires Safe(v) && d.cert == v.disk.cert && d.key == v.disk.key
    ensures Moved(v, d) == v.(disk := d)
  {
    hide Archived, Safe;
    LiveKeysAreOnRecord(v);
    assert ServedKeys(d) == ServedKeys(v.disk) && HeldKeys(d) == HeldKeys(v.disk);
    hide ServedKeys, HeldKeys, Live;
    assert v.served + ServedKeys(d) == v.served;
    assert v.held + HeldKeys(d) == v.held;
  }

  lemma SameFilesAreSafe(v: View, d: Disk)
    requires Safe(v) && d.cert == v.disk.cert && d.key == v.disk.key && d.archives == v.disk.archives
    ensures Safe(v.(disk := d))
  {
    assert forall key :: Archived(d, key) == Archived(v.disk, key);
    hide Archived;
  }

  lemma StagingIsSafe(v: View, op: Op)
    requires Safe(v) && Aside(op) && !ArchiveOp(op)
    ensures Safe(Next(v, op)) && Next(v, op) == v.(disk := Perform(v.disk, op))
  {
    hide Safe, Perform, Moved;
    StagingMoves(v.disk, op);
    MovedStill(v, Perform(v.disk, op));
    SameFilesAreSafe(v, Perform(v.disk, op));
  }

  /** With the live key archived, the live files may change in any way. */
  lemma LiveFilesMayChange(v: View, d: Disk)
    requires Safe(v) && KeyArchived(v.disk) && d.archives == v.disk.archives
    ensures Safe(Moved(v, d))
  {
    assert forall key :: Archived(d, key) == Archived(v.disk, key);
    hide Archived;
  }

  lemma LiveMoves(d: Disk, op: Op)
    requires LiveOp(op)
    ensures Perform(d, op).archives == d.archives
    ensures KeyArchived(d) && !op.RenameKey? ==> KeyArchived(Perform(d, op))
  {
    assert forall key :: Archived(Perform(d, op), key) == Archived(d, key);
  }

  lemma ArchivedKeyMayChange(v: View, op: Op)
    requires Safe(v) && KeyArchived(v.disk)
    requires LiveOp(op)
    ensures Safe(Next(v, op))
    ensures !op.RenameKey? ==> KeyArchived(Perform(v.disk, op))
  {
    hide Safe, Perform, Moved, KeyArchived;
    LiveMoves(v.disk, op);
    LiveFilesMayChange(v, Perform(v.disk, op));
  }

  /** An archive that holds nothing yet, or holds a copy of the live files, carries no key alone. */
  lemma ArchivesAreExtra(v: View, d': Disk, name: Name)
    requires Safe(v) && name !in v.disk.archives
    requires d'.cert == v.disk.cert && d'.key == v.disk.key
    requires d'.archives == v.disk.archives || (name in d'.archives && d'.archives - {name} == v.disk.archives)
    requires |v.disk.archives| < MAX_ARCHIVES
    ensures Safe(v.(disk := d'))
  {
    if name in d'.archives {
      assert d'.archives.Keys == v.disk.archives.Keys + {name};
      assert |d'.archives| == |d'.archives.Keys| && |v.disk.archives| == |v.disk.archives.Keys|;
    }
    forall key: Key | Archived(v.disk, key) ensures Archived(d', key) {
      var n :| n in v.disk.archives && v.disk.archives[n].key == Whole(key);
      assert d'.archives[n] == v.disk.archives[n];
    }
  }

  lemma AsideKeepsArchived(d: Disk, op: Op)
    requires Aside(op) && !ArchiveOp(op)
    ensures KeyArchived(Perform(d, op)) == KeyArchived(d)
  {
    assert Perform(d, op).archives == d.archives;
  }

  /** Finishing an interrupted generation overwrites nothing. */
  lemma PromotionIsSafe(v: View)
    requires Safe(v) && v.disk.key.Absent?
    ensures Safe(Next(v, RenameKey))
  {
    hide Safe, Perform, Live, Archived;
    LiveMoves(v.disk, RenameKey);
    LiveFilesMayChange(v, Perform(v.disk, RenameKey));
  }

  /** The key of a pair that does not serve may be replaced, if it is archived or on record as exposed. */
  lemma ExposedKeyMayChange(v: View, d: Disk)
    requires Safe(v) && !Live(v.disk) && d.archives == v.disk.archives
    requires v.disk.key.Whole? ==> Archived(v.disk, v.disk.key.content) || MetExposed(v.boots, v.disk.key.content)
    ensures Safe(Moved(v, d))
  {
    assert forall key :: Archived(d, key) == Archived(v.disk, key);
    hide Archived, MetExposed;
    var moved := Moved(v, d);
    forall key | key in moved.served
      ensures (Live(d) && d.key == Whole(key)) || Archived(d, key)
    {
      assert key in v.served || key in ServedKeys(d);
    }
    forall key | key in moved.held
      ensures d.key == Whole(key) || Archived(d, key) || MetExposed(moved.boots, key)
    {
      assert key in v.held || key in HeldKeys(d);
    }
  }

  /** The boot has put the files it met on record. */
  ghost predicate OnRecord(v: View) {
    forall key | Exposed(v.disk, key) :: MetExposed(v.boots, key)
  }

  /** Finishing an interrupted replacement loses no key but one that the boot found exposed. */
  lemma CompletionIsSafe(v: View)
    requires Safe(v) && !Live(v.disk) && Completable(v.disk) && OnRecord(v)
    ensures Safe(Next(v, RenameKey))
  {
    hide Safe, Perform, Live, Archived, Moved, Completable, MetExposed;
    LiveMoves(v.disk, RenameKey);
    assert v.disk.key.Whole? && !Archived(v.disk, v.disk.key.content) ==> Exposed(v.disk, v.disk.key.content);
    ExposedKeyMayChange(v, Perform(v.disk, RenameKey));
  }

  /** A boot that begins puts the files it meets on record, and they carry its exposed key. */
  lemma BootIsOnRecord(v: View)
    requires Safe(v)
    ensures var v' := v.(boots := v.boots + [v.disk]); Safe(v') && OnRecord(v')
  {
    hide Archived, Exposed;
    var boots := v.boots + [v.disk];
    assert boots[|v.boots|] == v.disk;
    forall key | MetExposed(v.boots, key)
      ensures MetExposed(boots, key)
    {
      var i :| 0 <= i < |v.boots| && Exposed(v.boots[i], key);
      assert boots[i] == v.boots[i];
    }
    assert forall key | Exposed(v.disk, key) :: Exposed(boots[|v.boots|], key);
  }

  /** A served key is never exposed: what does not serve any more was archived first. */
  lemma ServedKeyIsNotExposed(v: View, key: Key)
    requires Safe(v) && key in v.served
    ensures !Exposed(v.disk, key)
  {
  }

  /** `d` differs from `before` in nothing but the archive `name`. */
  predicate OnlyArchive(before: Disk, d: Disk, name: Name) {
    && d == before.(archives := d.archives)
    && (d.archives == before.archives || (name in d.archives && d.archives - {name} == before.archives))
  }

  lemma ArchiveMoves(before: Disk, d: Disk, op: Op, name: Name)
    requires name !in before.archives && OnlyArchive(before, d, name) && ArchiveOp(op) && op.name == name
    ensures OnlyArchive(before, Perform(d, op), name)
  {
    var d' := Perform(d, op);
    assert d'.archives - {name} == d.archives - {name};
    assert before.archives - {name} == before.archives;
    assert name !in d'.archives ==> d'.archives == d'.archives - {name};
  }

  lemma FillingIsSafe(before: View, v: View, op: Op, name: Name)
    requires Safe(before) && name !in before.disk.archives && |before.disk.archives| < MAX_ARCHIVES
    requires v == before.(disk := v.disk) && OnlyArchive(before.disk, v.disk, name)
    requires ArchiveOp(op) && op.name == name
    ensures Safe(Next(v, op))
    ensures Next(v, op) == before.(disk := Perform(v.disk, op))
    ensures OnlyArchive(before.disk, Perform(v.disk, op), name)
  {
    hide Perform, Safe, Moved;
    ArchiveMoves(before.disk, v.disk, op, name);
    ArchivesAreExtra(before, v.disk, name);
    MovedStill(v, Perform(v.disk, op));
    ArchivesAreExtra(before, Perform(v.disk, op), name);
  }

  /** Working on a new archive leaves the archives of any earlier view as they were. */
  lemma FillingKeepsArchives(first: View, before: View, op: Op, name: Name, d: Disk)
    requires Remembers(first, before) && name !in before.disk.archives && OnlyArchive(before.disk, d, name)
    requires ArchiveOp(op) && op.name == name
    ensures Intact(first.disk.archives, Perform(d, op).archives)
  {
    hide Perform;
    ArchiveMoves(before.disk, d, op, name);
    ArchiveAdded(before.disk, Perform(d, op), name);
  }

  function WithArchive(d: Disk, name: Name, archive: Archive): Disk {
    d.(archives := d.archives[name := archive])
  }

  lemma MadeArchive(d: Disk, name: Name)
    requires name !in d.archives
    ensures Perform(d, MakeArchive(name)) == WithArchive(d, name, Archive(Absent, Absent))
    ensures OnlyArchive(d, Perform(d, MakeArchive(name)), name)
    ensures Perform(d, MakeArchive(name)) == d.(archives := Perform(d, MakeArchive(name)).archives)
  {
  }

  lemma CopiedCert(d: Disk, name: Name, archive: Archive)
    ensures Perform(Perform(WithArchive(d, name, archive), TearArchiveCert(name)), CopyToArchiveCert(name))
         == WithArchive(d, name, archive.(cert := d.cert))
  {
    var torn := Perform(WithArchive(d, name, archive), TearArchiveCert(name));
    assert torn.archives == d.archives[name := archive.(cert := Torn)];
    assert Perform(torn, CopyToArchiveCert(name)).archives == d.archives[name := archive.(cert := d.cert)];
  }

  lemma CopiedKey(d: Disk, name: Name, archive: Archive)
    ensures Perform(Perform(WithArchive(d, name, archive), TearArchiveKey(name)), CopyToArchiveKey(name))
         == WithArchive(d, name, archive.(key := d.key))
  {
    var torn := Perform(WithArchive(d, name, archive), TearArchiveKey(name));
    assert torn.archives == d.archives[name := archive.(key := Torn)];
    assert Perform(torn, CopyToArchiveKey(name)).archives == d.archives[name := archive.(key := d.key)];
  }

  lemma Drops(d: Disk)
    ensures Perform(d, DropCertTmp) == d.(certTmp := Absent) && Perform(d, DropKeyTmp) == d.(keyTmp := Absent)
    ensures Perform(d, DropMarker) == d.(marker := Absent)
  {
  }

  lemma Stages(d: Disk, pair: Pair)
    ensures Perform(d, TearKeyTmp) == d.(keyTmp := Torn)
    ensures Perform(Perform(d, TearKeyTmp), FillKeyTmp(pair.key)) == d.(keyTmp := Whole(pair.key))
    ensures Perform(d, TearCertTmp) == d.(certTmp := Torn)
    ensures Perform(Perform(d, TearCertTmp), FillCertTmp(pair.cert)) == d.(certTmp := Whole(pair.cert))
  {
  }

  lemma Marks(d: Disk, fingerprint: nat)
    ensures Perform(d, TearMarker) == d.(marker := Torn)
    ensures Perform(Perform(d, TearMarker), FillMarker(fingerprint)) == d.(marker := Whole(fingerprint))
    ensures Perform(Perform(d, TearMarker), TearMarker) == d.(marker := Torn)
  {
  }

  lemma Restores(d: Disk, name: Name)
    ensures Perform(d, TearCert) == d.(cert := Torn) && Perform(d, TearKey) == d.(key := Torn)
    ensures name in d.archives ==>
              && Perform(Perform(d, TearCert), RestoreCert(name)) == d.(cert := d.archives[name].cert)
              && Perform(Perform(d, TearKey), RestoreKey(name)) == d.(key := d.archives[name].key)
  {
  }

  lemma ArchiveAdded(before: Disk, d: Disk, name: Name)
    requires name !in before.archives && OnlyArchive(before, d, name)
    ensures Intact(before.archives, d.archives)
    ensures d == WithArchive(before, name, Archive(before.cert, before.key)) ==>
              d.archives == before.archives[name := Archive(d.cert, d.key)]
  {
    forall n | n in before.archives ensures n in d.archives && d.archives[n] == before.archives[n] {
      if d.archives != before.archives {
        assert n in (d.archives - {name}) && (d.archives - {name})[n] == before.archives[n];
      }
    }
  }

  /** A full second of names cannot be taken by fewer archives than names. */
  lemma {:induction false} NamesAreArchives(archives: map<Name, Archive>, stamp: int, attempts: nat)
    requires forall a: nat | a < attempts :: Name(stamp, a) in archives
    ensures attempts <= |archives|
  {
    if attempts > 0 {
      var last := Name(stamp, attempts - 1);
      var rest := archives - {last};
      assert rest.Keys == archives.Keys - {last};
      NamesAreArchives(rest, stamp, attempts - 1);
      assert |rest| == |rest.Keys| && |archives| == |archives.Keys|;
    }
  }

  /**
   The search for a directory name. With fewer than `MAX_ARCHIVES` archives it ends long
   before the source's bound on the attempts.
   */
  method FirstUnused(archives: map<Name, Archive>, stamp: int) returns (attempt: nat)
    ensures Name(stamp, attempt) !in archives
    ensures forall a: nat | a < attempt :: Name(stamp, a) in archives
    ensures |archives| < MAX_ARCHIVES ==> attempt < MAX_ARCHIVES < ARCHIVE_ATTEMPTS
  {
    attempt := 0;
    while Name(stamp, attempt) in archives
      invariant attempt <= |archives|
      invariant forall a: nat | a < attempt :: Name(stamp, a) in archives
      decreases |archives| - attempt
    {
      NamesAreArchives(archives, stamp, attempt + 1);
      attempt := attempt + 1;
    }
  }

  // ---------- The directory ----------

  datatype StoreError = Io | ArchiveFull | IncompletePair | KeyMismatch

  class PairDirectory {
    const reliable: bool
    var disk: Disk
    ghost const first: View
    ghost var log: seq<Op>
    var past: seq<View>
    var served: set<Key>
    var held: set<Key>
    var boots: seq<Disk>
    /**
     How many writes, renames, copies, removals and reads of the marker have failed. An archive
     directory or a pair that cannot be read, and a permission that cannot be set, are failures too
     but are not counted: what is promised up to a number of failures holds for any number of these.
     */
    var failures: nat

    function Now(): View
      reads this
    {
      View(disk, served, held, boots)
    }

    /** The log accounts for the disk, and every state so far, this one included, is safe. */
    ghost predicate Valid()
      reads this
    {
      && disk == RunOps(first.disk, log)
      && Safe(Now()) && Remembers(first, Now())
      && forall i | 0 <= i < |past| :: Safe(past[i]) && Remembers(first, past[i])
    }

    /** The directory as found; `view` carries what is known of its earlier states. */
    constructor (view: View, reliable: bool)
      requires Safe(view)
      ensures Valid() && Now() == view && first == view && this.reliable == reliable
      ensures log == [] && past == [] && failures == 0
    {
      this.disk, this.reliable, first := view.disk, reliable, view;
      log, past := [], [];
      served, held, boots, failures := view.served, view.held, view.boots, 0;
    }

    /** One file-system call: it takes effect as a whole, or fails and changes nothing. */
    method Try(op: Op) returns (ok: bool)
      requires Valid() && Safe(Next(Now(), op)) && Intact(first.disk.archives, Perform(disk, op).archives)
      modifies this
      ensures Valid() && past == old(past + [Now()])
      ensures reliable ==> ok
      ensures failures == old(failures) + if ok then 0 else 1
      ensures ok ==> disk == Perform(old(disk), op) && Now() == old(Next(Now(), op)) && log == old(log) + [op]
      ensures !ok ==> Now() == old(Now()) && log == old(log)
    {
      hide Safe, Perform, Next, Intact;
      NextRemembers(first, Now(), op);
      past := past + [Now()];
      var fails: bool := *;
      ok := reliable || !fails;
      if ok {
        var next := Next(Now(), op);
        assert (log + [op])[..|log|] == log;
        disk := Perform(disk, op);
        log := log + [op];
        served, held, boots := next.served, next.held, next.boots;
      } else {
        failures := failures + 1;
      }
    }

    /** A write or a copy: the file is torn first, and whole only at the end. */
    method TryWrite(tear: Op, fill: Op) returns (ok: bool)
      requires Valid() && Aside(tear) && !ArchiveOp(tear) && Aside(fill) && !ArchiveOp(fill)
      modifies this
      ensures Valid() && boots == old(boots) && served == old(served)
      ensures reliable ==> ok
      ensures failures == old(failures) + if ok then 0 else 1
      ensures ok ==> disk == Perform(Perform(old(disk), tear), fill) && log == old(log) + [tear, fill]
      ensures !ok ==> disk == old(disk) || disk == Perform(old(disk), tear)
      ensures old(KeyArchived(disk)) ==> KeyArchived(disk)
    {
      hide Safe, Next, Perform, Archived;
      AsideKeepsArchived(disk, tear);
      StagingMoves(disk, tear);
      StagingIsSafe(Now(), tear);
      ok := Try(tear);
      if ok {
        AsideKeepsArchived(disk, fill);
        StagingMoves(disk, fill);
        StagingIsSafe(Now(), fill);
        ok := Try(fill);
        assert old(log) + [tear] + [fill] == old(log) + [tear, fill];
      }
    }

    /** `discard`: a removal whose failure is ignored. */
    method Discard(op: Op)
      requires Valid() && (op.DropCertTmp? || op.DropKeyTmp? || op.DropMarker?)
      modifies this
      ensures Valid() && boots == old(boots) && served == old(served)
      ensures disk == Perform(old(disk), op) || (!reliable && disk == old(disk) && failures > old(failures))
      ensures failures >= old(failures)
      ensures reliable ==> log == old(log) + [op]
      ensures old(KeyArchived(disk)) ==> KeyArchived(disk)
    {
      hide Safe, Next;
      StagingMoves(disk, op);
      StagingIsSafe(Now(), op);
      var _ := Try(op);
    }

    /** The staged files may be anything; all else is as in `before`. */
    ghost predicate OnlyStaged(before: Disk)
      reads this
    {
      disk == before.(certTmp := disk.certTmp, keyTmp := disk.keyTmp)
    }

    /** `discard_staged`. */
    method DiscardStaged()
      requires Valid()
      modifies this
      ensures Valid() && OnlyStaged(old(disk)) && boots == old(boots) && served == old(served)
      ensures failures >= old(failures)
      ensures reliable ==> log == old(log) + DISCARD_OPS
      ensures failures == old(failures) ==> disk.certTmp == Absent && disk.keyTmp == Absent
      ensures old(KeyArchived(disk)) ==> KeyArchived(disk)
    {
      hide Safe, Valid, Perform, KeyArchived;
      Drops(disk);
      Discard(DropCertTmp);
      Drops(disk);
      Discard(DropKeyTmp);
    }

    method StagePair(pair: Pair) returns (ok: bool)
      requires Valid()
      modifies this
      ensures Valid() && OnlyStaged(old(disk)) && boots == old(boots) && served == old(served)
      ensures failures >= old(failures) + if ok then 0 else 1
      ensures reliable ==> ok && log == old(log) + StageOps(pair)
      ensures ok ==> disk.certTmp == Whole(pair.cert) && disk.keyTmp == Whole(pair.key)
    {
      hide Safe, Valid, Perform, KeyArchived;
      Drops(disk);
      Discard(DropKeyTmp);
      Stages(disk, pair);
      ok := TryWrite(TearKeyTmp, FillKeyTmp(pair.key));
      if ok {
        Stages(disk, pair);
        ok := TryWrite(TearCertTmp, FillCertTmp(pair.cert));
      }
      if !ok {
        DiscardStaged();
      }
    }

    method UnusedArchiveDir(stamp: int) returns (r: Result<Name, StoreError>)
      requires Valid()
      modifies this
      ensures Valid() && boots == old(boots) && served == old(served) && held == old(held)
      ensures failures >= old(failures)
      ensures r.Ok? ==>
                && r.value !in old(disk.archives) && |old(disk.archives)| < MAX_ARCHIVES
                && disk == Perform(old(disk), MakeArchive(r.value)) && log == old(log) + [MakeArchive(r.value)]
      ensures r.Err? ==> disk == old(disk) && log == old(log)
      ensures reliable ==> (r.Ok? <==> |old(disk.archives)| < MAX_ARCHIVES)
      ensures r == Err(ArchiveFull) ==> |old(disk.archives)| >= MAX_ARCHIVES
      ensures r.Err? && |old(disk.archives)| >= MAX_ARCHIVES && reliable ==> r.error == ArchiveFull
    {
      hide Safe;
      var unreadable: bool := *;
      if !reliable && unreadable {
        return Err(Io);
      }
      if |disk.archives| >= MAX_ARCHIVES {
        return Err(ArchiveFull);
      }
      var attempt := FirstUnused(disk.archives, stamp);
      var name := Name(stamp, attempt);
      FillingIsSafe(Now(), Now(), MakeArchive(name), name);
      FillingKeepsArchives(first, Now(), MakeArchive(name), name, disk);
      var ok := Try(MakeArchive(name));
      r := if ok then Ok(name) else Err(Io);
    }

    /** `fill_archive` into a directory just made; `before` is the view from before that. */
    method FillArchive(name: Name, ghost before: View) returns (ok: bool)
      requires Valid() && Safe(before) && |before.disk.archives| < MAX_ARCHIVES && name !in before.disk.archives
      requires Remembers(first, before) && Now() == before.(disk := Perform(before.disk, MakeArchive(name)))
      modifies this
      ensures Valid() && Now() == before.(disk := disk) && failures >= old(failures)
      ensures OnlyArchive(before.disk, disk, name) && OnlyArchives(before.disk)
      ensures ok ==> disk == WithArchive(before.disk, name, Archive(before.disk.cert, before.disk.key))
      ensures reliable ==> ok && log == old(log) + FillOps(before.disk, name)
    {
      hide Safe, Next, Perform, OnlyArchive, WithArchive, Valid, Remembers;
      ok := true;
      MadeArchive(before.disk, name);
      if !disk.cert.Absent? {
        ok := CopyToArchive(TearArchiveCert(name), CopyToArchiveCert(name), name, before);
        CopiedCert(before.disk, name, Archive(Absent, Absent));
      }
      if ok && !disk.key.Absent? {
        ok := CopyToArchive(TearArchiveKey(name), CopyToArchiveKey(name), name, before);
        CopiedKey(before.disk, name, Archive(before.disk.cert, Absent));
      }
      if ok && !disk.key.Absent? {
        var denied: bool := *;
        ok := reliable || !denied;
      }
    }

    method CopyToArchive(tear: Op, copy: Op, name: Name, ghost before: View) returns (ok: bool)
      requires Valid() && Safe(before) && |before.disk.archives| < MAX_ARCHIVES && name !in before.disk.archives
      requires Remembers(first, before) && Now() == before.(disk := disk)
      requires OnlyArchive(before.disk, disk, name) && OnlyArchives(before.disk)
      requires ArchiveOp(tear) && ArchiveOp(copy) && tear.name == name && copy.name == name
      modifies this
      ensures Valid() && Now() == before.(disk := disk) && failures >= old(failures)
      ensures OnlyArchive(before.disk, disk, name) && OnlyArchives(before.disk)
      ensures reliable ==> ok
      ensures ok ==> disk == Perform(Perform(old(disk), tear), copy) && log == old(log) + [tear, copy]
    {
      hide Safe, Next, Perform, Moved, Archived, Intact;
      FillingIsSafe(before, Now(), tear, name);
      FillingKeepsArchives(first, before, tear, name, disk);
      ok := Try(tear);
      if ok {
        FillingIsSafe(before, Now(), copy, name);
        FillingKeepsArchives(first, before, copy, name, disk);
        ok := Try(copy);
        assert old(log) + [tear] + [copy] == old(log) + [tear, copy];
      }
    }

    /** Removes a half-filled archive; the removal itself may fail. */
    method AbandonArchive(name: Name, ghost before: View)
      requires Valid() && Safe(before) && |before.disk.archives| < MAX_ARCHIVES && name !in before.disk.archives
      requires Remembers(first, before) && Now() == before.(disk := disk)
      requires OnlyArchive(before.disk, disk, name) && OnlyArchives(before.disk)
      modifies this
      ensures Valid() && Now() == before.(disk := disk) && failures >= old(failures)
      ensures OnlyArchive(before.disk, disk, name) && OnlyArchives(before.disk)
    {
      hide Safe, Next;
      FillingIsSafe(before, Now(), DropArchive(name), name);
      FillingKeepsArchives(first, before, DropArchive(name), name, disk);
      var _ := Try(DropArchive(name));
    }

    ghost predicate OnlyArchives(before: Disk)
      reads this
    {
      disk == before.(archives := disk.archives)
    }

    method ArchivePair(stamp: int) returns (r: Result<Name, StoreError>)
      requires Valid() && !NoPair(disk)
      modifies this
      ensures Valid() && OnlyArchives(old(disk)) && boots == old(boots) && served == old(served)
      ensures r.Ok? ==>
                && r.value !in old(disk.archives)
                && disk.archives == old(disk.archives)[r.value := Archive(disk.cert, disk.key)]
      ensures Intact(old(disk.archives), disk.archives) && failures >= old(failures)
      ensures reliable ==> (r.Ok? <==> |old(disk.archives)| < MAX_ARCHIVES)
      ensures reliable && r.Ok? ==> log == old(log) + ArchiveOps(old(disk), r.value)
      ensures reliable && r.Err? ==> disk == old(disk) && log == old(log) && r.error == ArchiveFull
    {
      hide Safe, Next;
      ghost var before := Now();
      assert Safe(before) && Remembers(first, before);
      hide Valid, Perform, OnlyArchive, WithArchive, Remembers, Intact;
      var dir := UnusedArchiveDir(stamp);
      if dir.Err? {
        return dir;
      }
      var name := dir.value;
      var ok := FillArchive(name, before);
      ArchiveAdded(before.disk, disk, name);
      if ok {
        FillOpsArchive(old(disk), name);
        assert old(log) + [MakeArchive(name)] + FillOps(old(disk), name)
            == old(log) + ([MakeArchive(name)] + FillOps(old(disk), name));
        return Ok(name);
      }
      AbandonArchive(name, before);
      ArchiveAdded(before.disk, disk, name);
      r := Err(Io);
    }

    /** A call that changes a live file, once the live key has a copy in an archive. */
    method TryLive(op: Op) returns (ok: bool)
      requires Valid() && KeyArchived(disk)
      requires LiveOp(op)
      modifies this
      ensures Valid() && boots == old(boots)
      ensures reliable ==> ok
      ensures failures == old(failures) + if ok then 0 else 1
      ensures ok ==> disk == Perform(old(disk), op) && log == old(log) + [op]
      ensures !ok ==> disk == old(disk) && log == old(log)
      ensures !(ok && op.RenameKey?) ==> KeyArchived(disk)
    {
      hide Safe, Archived, Perform;
      LiveMoves(disk, op);
      ArchivedKeyMayChange(Now(), op);
      ok := Try(op);
    }

    /** Renames the staged pair over the live one, whose key has been archived. */
    method CommitPair() returns (ok: bool)
      requires Valid() && KeyArchived(disk) && disk.certTmp.Whole? && disk.keyTmp.Whole?
      modifies this
      ensures Valid() && boots == old(boots)
      ensures disk.archives == old(disk.archives) && disk.marker == old(disk.marker)
      ensures ok ==>
                disk == old(disk.(cert := disk.certTmp, key := disk.keyTmp, certTmp := Absent, keyTmp := Absent))
      ensures !ok ==> disk.key == old(disk.key) && KeyArchived(disk)
      ensures failures >= old(failures) + if ok then 0 else 1
      ensures !ok && failures == old(failures) + 1 ==> disk.cert == old(disk.cert) || disk.cert == Absent
      ensures reliable ==> ok && log == old(log) + CommitOps()
    {
      hide Safe, Archived, Valid, KeyArchived;
      ok := TryLive(RenameCert);
      if !ok {
        DiscardStaged();
        return;
      }
      ok := TryLive(RenameKey);
      if !ok {
        var _ := TryLive(DropCert);
        Discard(DropKeyTmp);
      }
    }

    /** One half of `restore_pair`: a copy out of the archive onto a live file. */
    method CopyFromArchive(tear: Op, restore: Op) returns (ok: bool)
      requires Valid() && KeyArchived(disk)
      requires (tear.TearCert? && restore.RestoreCert?) || (tear.TearKey? && restore.RestoreKey?)
      modifies this
      ensures Valid() && KeyArchived(disk) && boots == old(boots)
      ensures failures == old(failures) + if ok then 0 else 1
      ensures || disk == old(disk) || disk == Perform(old(disk), tear)
              || disk == Perform(Perform(old(disk), tear), restore)
      ensures ok ==> disk == Perform(Perform(old(disk), tear), restore)
    {
      hide Safe, Archived, Valid, KeyArchived, Perform;
      ok := TryLive(tear);
      if ok {
        ok := TryLive(restore);
      }
    }

    /** `restore_pair`: puts the archived files back after a failed commit, as far as it can. */
    method RestorePair(name: Name) returns (restored: bool)
      requires Valid() && KeyArchived(disk) && name in disk.archives
      modifies this
      ensures Valid() && KeyArchived(disk) && boots == old(boots)
      ensures disk.archives == old(disk.archives) && disk.marker == old(disk.marker)
      ensures failures >= old(failures) && (failures == old(failures) ==> restored)
      ensures restored ==>
                && disk.cert == (if disk.archives[name].cert.Absent? then old(disk.cert) else disk.archives[name].cert)
                && disk.key == (if disk.archives[name].key.Absent? then old(disk.key) else disk.archives[name].key)
    {
      hide Safe, Archived, Valid, KeyArchived, Perform;
      DiscardStaged();
      restored := true;
      if !disk.archives[name].cert.Absent? {
        Restores(disk, name);
        restored := CopyFromArchive(TearCert, RestoreCert(name));
      }
      if !disk.archives[name].key.Absent? {
        Restores(disk, name);
        var copied := CopyFromArchive(TearKey, RestoreKey(name));
        restored := restored && copied;
      }
    }

    /** The archive half of an install: nothing to do when there is no pair yet. */
    method ArchiveIfPresent(stamp: int) returns (r: Result<Option<Name>, StoreError>, ghost used: Name)
      requires Valid()
      modifies this
      ensures Valid() && OnlyArchives(old(disk)) && boots == old(boots)
      ensures Intact(old(disk.archives), disk.archives) && failures >= old(failures)
      ensures r.Ok? ==> KeyArchived(disk)
      ensures r == Ok(None) ==> NoPair(disk)
      ensures r.Ok? && r.value.Some? ==>
                && r.value.value !in old(disk.archives)
                && r.value.value in disk.archives && disk.archives[r.value.value] == Archive(disk.cert, disk.key)
      ensures r.Ok? && !NoPair(disk) ==> r.value.Some?
      ensures reliable ==> (r.Ok? <==> NoPair(old(disk)) || |old(disk.archives)| < MAX_ARCHIVES)
      ensures reliable && r.Ok? ==> log == old(log) + ArchiveOps(old(disk), used)
      ensures reliable && r.Err? ==> disk == old(disk) && log == old(log) && r.error == ArchiveFull
    {
      hide Safe, Valid;
      used := Name(stamp, 0);
      if NoPair(disk) {
        r := Ok(None);
        assert log == old(log) + ArchiveOps(old(disk), used);
      } else {
        var archive := ArchivePair(stamp);
        match archive {
          case Ok(name) =>
            r, used := Ok(Some(name)), name;
            assert KeyArchived(disk) by { assert disk.archives[name].key == disk.key; }
          case Err(error) =>
            r := Err(error);
        }
      }
    }

    /** `install_api_pair` of a validated pair. */
    method InstallApiPair(pair: Pair, stamp: int) returns (r: Result<(), StoreError>)
      requires Valid() && Matches(pair.cert, pair.key)
      modifies this
      ensures Valid() && boots == old(boots) && Intact(old(disk.archives), disk.archives)
      ensures r.Ok? ==>
                && Live(disk) && LivePair(disk) == pair && disk.marker == Whole(pair.cert.fingerprint)
                && disk.certTmp == Absent && disk.keyTmp == Absent
                && (!NoPair(old(disk)) ==> NewlyArchived(old(disk), disk.archives))
      ensures reliable ==> (r.Ok? <==> NoPair(old(disk)) || |old(disk.archives)| < MAX_ARCHIVES)
      ensures reliable && r.Ok? ==> exists name :: log == old(log) + ImportOps(old(disk), pair, name)
      ensures reliable && r.Err? ==>
                OnlyStaged(old(disk)) && r.error == ArchiveFull && log == old(log) + RefusedOps(pair)
      ensures failures >= old(failures)
      ensures r.Err? && failures <= old(failures) + 1 ==>
                && disk.cert == old(disk.cert) && disk.key == old(disk.key)
                && (disk.marker == old(disk.marker) || disk.marker == Torn)
    {
      hide Safe, Valid, KeyArchived, Archived, Perform, StageOps, ArchiveOps, CommitOps;
      var staged := StagePair(pair);
      if !staged {
        return Err(Io);
      }
      ghost var ready := disk;
      var archive, used := ArchiveIfPresent(stamp);
      if archive.Err? {
        DiscardStaged();
        return Err(archive.error);
      }
      var committed := MarkAndCommit(pair, archive.value);
      if !committed {
        return Err(Io);
      }
      r := Ok(());
      if reliable {
        SameArchiveOps(ready, old(disk), used);
        var mark := [TearMarker, FillMarker(pair.cert.fingerprint)];
        Regroup(old(log), StageOps(pair), ArchiveOps(ready, used), mark, CommitOps());
        assert log == old(log) + ImportOps(old(disk), pair, used);
      }
    }

    /** The second half of an import: the marker, then the renames, then what undoes them if they fail. */
    method MarkAndCommit(pair: Pair, archive: Option<Name>) returns (ok: bool)
      requires Valid() && KeyArchived(disk) && disk.certTmp == Whole(pair.cert) && disk.keyTmp == Whole(pair.key)
      requires match archive
               case None => NoPair(disk)
               case Some(name) => name in disk.archives && disk.archives[name] == Archive(disk.cert, disk.key)
      modifies this
      ensures Valid() && boots == old(boots) && disk.archives == old(disk.archives)
      ensures ok ==>
                && disk.cert == Whole(pair.cert) && disk.key == Whole(pair.key)
                && disk.marker == Whole(pair.cert.fingerprint) && disk.certTmp == Absent && disk.keyTmp == Absent
      ensures failures >= old(failures) && (reliable ==> ok)
      ensures ok && reliable ==> log == old(log) + [TearMarker, FillMarker(pair.cert.fingerprint)] + CommitOps()
      ensures !ok && failures <= old(failures) + 1 ==>
                && disk.cert == old(disk.cert) && disk.key == old(disk.key)
                && (disk.marker == old(disk.marker) || disk.marker == Torn)
    {
      hide Safe, Valid, KeyArchived, Archived, Perform, CommitOps;
      var previous := ReadMarker();
      Marks(disk, pair.cert.fingerprint);
      ok := TryWrite(TearMarker, FillMarker(pair.cert.fingerprint));
      if !ok {
        DiscardStaged();
        return;
      }
      ok := CommitPair();
      if !ok {
        RollBack(archive, previous);
      }
    }

    /** The marker before an import; one that cannot be read counts as absent. */
    method ReadMarker() returns (previous: File<nat>)
      requires Valid()
      modifies this`failures
      ensures Valid() && failures >= old(failures)
      ensures failures == old(failures) ==> previous == disk.marker
      ensures failures != old(failures) ==> previous == Absent && failures == old(failures) + 1
      ensures reliable ==> failures == old(failures)
    {
      hide Safe, Remembers, RunOps;
      previous := disk.marker;
      var unreadable: bool := *;
      if !reliable && unreadable {
        previous := Absent;
        failures := failures + 1;
      }
    }

    /** What `install_api_pair` undoes when its commit fails; all of it when no call fails. */
    method RollBack(archive: Option<Name>, previous: File<nat>)
      requires Valid() && KeyArchived(disk)
      requires archive.Some? ==> archive.value in disk.archives
      modifies this
      ensures Valid() && KeyArchived(disk) && boots == old(boots) && disk.archives == old(disk.archives)
      ensures failures >= old(failures)
      ensures failures == old(failures) ==> disk.marker == previous
      ensures failures == old(failures) && archive.None? ==> disk.cert == old(disk.cert) && disk.key == old(disk.key)
      ensures failures == old(failures) && archive.Some? ==>
                var kept := disk.archives[archive.value];
                && disk.cert == (if kept.cert.Absent? then old(disk.cert) else kept.cert)
                && disk.key == (if kept.key.Absent? then old(disk.key) else kept.key)
    {
      hide Safe, Valid, KeyArchived, Archived, Perform;
      if archive.Some? {
        var _ := RestorePair(archive.value);
      }
      match previous {
        case Whole(fingerprint) =>
          Marks(disk, fingerprint);
          var _ := TryWrite(TearMarker, FillMarker(fingerprint));
        case Torn =>
          Marks(disk, 0);
          var _ := TryWrite(TearMarker, TearMarker);
        case Absent =>
          Drops(disk);
          Discard(DropMarker);
      }
    }

    /** `install_ca` on the authority's files. */
    method InstallCa(pair: Pair, stamp: int) returns (r: Result<(), StoreError>)
      requires Valid() && Matches(pair.cert, pair.key)
      modifies this
      ensures Valid() && boots == old(boots) && Intact(old(disk.archives), disk.archives)
      ensures r.Ok? ==>
                && Live(disk) && LivePair(disk) == pair && disk.certTmp == Absent && disk.keyTmp == Absent
                && (!NoPair(old(disk)) ==> NewlyArchived(old(disk), disk.archives))
      ensures reliable ==> (r.Ok? <==> NoPair(old(disk)) || |old(disk.archives)| < MAX_ARCHIVES)
      ensures reliable && r.Ok? ==> exists name :: log == old(log) + InstallCaOps(old(disk), pair, name)
      ensures reliable && r.Err? ==> OnlyStaged(old(disk)) && r.error == ArchiveFull
      ensures failures >= old(failures)
      ensures r.Err? && failures <= old(failures) + 1 ==> disk.cert == old(disk.cert) && disk.key == old(disk.key)
    {
      hide Safe, Valid, KeyArchived, Archived, Perform, StageOps, ArchiveOps, CommitOps;
      var staged := StagePair(pair);
      if !staged {
        return Err(Io);
      }
      ghost var ready := disk;
      var archive, used := ArchiveIfPresent(stamp);
      if archive.Err? {
        DiscardStaged();
        return Err(archive.error);
      }
      var committed := CommitPair();
      if !committed {
        if archive.value.Some? {
          var _ := RestorePair(archive.value.value);
        }
        return Err(Io);
      }
      r := Ok(());
      if reliable {
        SameArchiveOps(ready, old(disk), used);
        Regroup(old(log), StageOps(pair), ArchiveOps(ready, used), [], CommitOps());
        assert log == old(log) + InstallCaOps(old(disk), pair, used);
      }
    }

    /** `load_pair`: whether both files are there, after finishing an interrupted generation. */
    method LoadPair() returns (r: Result<bool, StoreError>)
      requires Valid()
      modifies this
      ensures Valid() && boots == old(boots)
      ensures disk == old(disk) || (NeedsKey(old(disk)) && disk == Perform(old(disk), RenameKey))
      ensures r == Ok(true) ==> !disk.cert.Absent? && !disk.key.Absent?
      ensures r == Ok(false) ==> NoPair(disk)
      ensures reliable ==>
                && disk == RunOps(old(disk), LoadOps(old(disk))) && log == old(log) + LoadOps(old(disk))
                && (r.Ok? <==> disk.cert.Absent? == disk.key.Absent?)
      ensures served >= old(served)
    {
      hide Safe, Archived;
      RunNone(disk);
      if NeedsKey(disk) {
        PromotionIsSafe(Now());
        LiveMoves(disk, RenameKey);
        RunOne(disk, RenameKey);
        var ok := Try(RenameKey);
        if !ok {
          return Err(Io);
        }
      }
      if disk.cert.Absent? && disk.key.Absent? {
        return Ok(false);
      }
      if disk.cert.Absent? || disk.key.Absent? {
        return Err(IncompletePair);
      }
      var unreadable: bool := *;
      r := if !reliable && unreadable then Err(Io) else Ok(true);
    }

    /** `load_or_generate`, with `generated` the pair it makes when there is none. */
    method LoadOrGenerate(generated: Pair) returns (r: Result<Pair, StoreError>)
      requires Valid() && Matches(generated.cert, generated.key)
      modifies this
      ensures Valid() && disk.archives == old(disk.archives) && boots == old(boots) + [old(disk)]
      ensures r.Ok? ==> Live(disk) && r.value == LivePair(disk)
      ensures reliable ==> (r.Ok? <==> BootOps(old(disk), generated).1)
      ensures reliable ==> log == old(log) + BootOps(old(disk), generated).0
    {
      hide Safe, Valid, KeyArchived, Archived, RunOps, Perform, StageOps, CommitOps, OnRecord;
      BeginBoot();
      LiveMoves(disk, RenameKey);
      PromotedIsNotCompletable(disk);
      var loaded := LoadPair();
      if loaded.Err? {
        return Err(loaded.error);
      }
      if !loaded.value {
        var written := WriteGenerated(generated);
        if !written {
          return Err(Io);
        }
      } else if !Live(disk) {
        LiveMoves(disk, RenameKey);
        assert OnRecord(Now()) by { StillOnRecord(old(disk), Now()); }
        var completed := CompleteInterruptedReplacement();
        if !completed {
          return Err(KeyMismatch);
        }
      }
      DiscardStaged();
      r := Ok(LivePair(disk));
    }

    /** The pair a boot generates when there is none, and the marker it clears. */
    method WriteGenerated(generated: Pair) returns (ok: bool)
      requires Valid() && NoPair(disk)
      modifies this
      ensures Valid() && boots == old(boots) && disk.archives == old(disk.archives)
      ensures ok ==> disk.cert == Whole(generated.cert) && disk.key == Whole(generated.key)
      ensures reliable ==> ok && log == old(log) + StageOps(generated) + CommitOps() + [DropMarker]
    {
      hide Safe, Valid, KeyArchived, Archived, Perform, StageOps, CommitOps;
      ok := StagePair(generated);
      if ok {
        assert KeyArchived(disk) by { AbsentIsArchived(disk); }
        ok := CommitPair();
      }
      if ok {
        Drops(disk);
        Discard(DropMarker);
      }
    }

    /** A boot begins: the files it meets go on record. */
    method BeginBoot()
      requires Valid()
      modifies this`boots
      ensures Valid() && boots == old(boots) + [disk] && OnRecord(Now())
    {
      hide Safe, OnRecord, RunOps, Intact;
      BootIsOnRecord(Now());
      boots := boots + [disk];
    }

    method CompleteInterruptedReplacement() returns (ok: bool)
      requires Valid() && !Live(disk) && OnRecord(Now())
      modifies this
      ensures Valid() && boots == old(boots)
      ensures ok ==> Live(disk) && disk == Perform(old(disk), RenameKey) && log == old(log) + [RenameKey]
      ensures !ok ==> disk == old(disk) && log == old(log)
      ensures reliable ==> (ok <==> Completable(old(disk)))
    {
      hide Safe, Archived, OnRecord;
      var unreadable: bool := *;
      if !Completable(disk) || (!reliable && unreadable) {
        return false;
      }
      CompletionIsSafe(Now());
      LiveMoves(disk, RenameKey);
      ok := Try(RenameKey);
    }

    /** The part of `CertStore::open` that concerns the authority's files. */
    method OpenCa() returns (r: Result<Option<Pair>, StoreError>)
      requires Valid()
      modifies this
      ensures Valid() && boots == old(boots) && disk.archives == old(disk.archives)
      ensures r.Ok? && r.value.Some? ==> Live(disk) && r.value.value == LivePair(disk)
      ensures r.Ok? && r.value.None? ==> NoPair(disk)
      ensures reliable ==> (r.Ok? <==> OpenCaOps(old(disk)).1)
      ensures reliable ==> log == old(log) + OpenCaOps(old(disk)).0
    {
      hide Safe, Valid, RunOps;
      var loaded := LoadPair();
      if loaded.Err? {
        return Err(loaded.error);
      }
      if !loaded.value {
        return Ok(None);
      }
      if !Live(disk) {
        return Err(KeyMismatch);
      }
      DiscardStaged();
      r := Ok(Some(LivePair(disk)));
    }
  }

  lemma AbsentIsArchived(d: Disk)
    requires d.key.Absent?
    ensures KeyArchived(d)
  {
  }

  /** The replaced files are whole in an archive that was not there before. */
  predicate NewlyArchived(before: Disk, archives: map<Name, Archive>) {
    exists name | name in archives :: name !in before.archives && archives[name] == Archive(before.cert, before.key)
  }

  /** A promoted key leaves no staged key to complete with. */
  lemma PromotedIsNotCompletable(d: Disk)
    ensures NeedsKey(d) ==> !Completable(Perform(d, RenameKey))
  {
  }

  lemma StillOnRecord(met: Disk, v: View)
    requires v.boots != [] && v.boots[|v.boots| - 1] == met
    requires v.disk == met || !Completable(v.disk)
    ensures OnRecord(v)
  {
    hide Archived;
  }

  lemma SameArchiveOps(d: Disk, d': Disk, name: Name)
    requires d.cert == d'.cert && d.key == d'.key
    ensures ArchiveOps(d, name) == ArchiveOps(d', name)
  {
  }

  lemma Regroup(log: seq<Op>, a: seq<Op>, b: seq<Op>, c: seq<Op>, d: seq<Op>)
    ensures log + a + b + c + d == log + (a + b + c + d)
    ensures a + [] == a && a + b + [] == a + b && log + a + b + d == log + (a + b + d)
  {
  }

  function FillOps(d: Disk, name: Name): seq<Op> {
    (if d.cert.Absent? then [] else [TearArchiveCert(name), CopyToArchiveCert(name)])
    + (if d.key.Absent? then [] else [TearArchiveKey(name), CopyToArchiveKey(name)])
  }

  lemma FillOpsArchive(d: Disk, name: Name)
    requires !NoPair(d)
    ensures ArchiveOps(d, name) == [MakeArchive(name)] + FillOps(d, name)
  {
  }

  /**
   A boot, cut anywhere, loses the key in the key file exactly when the files it met expose
   that key and its first operation, the rename over the key file, has run.
   */
  lemma BootLosesKeyIff(d: Disk, generated: Pair, key: Key, cut: nat)
    requires Matches(generated.cert, generated.key) && d.key == Whole(key)
    requires cut <= |BootOps(d, generated).0|
    ensures var d' := RunOps(d, BootOps(d, generated).0[..cut]);
            (d'.key != Whole(key) && !Archived(d', key)) <==> (Exposed(d, key) && cut >= 1)
  {
    hide RunOps;
    RunNone(d);
    var ops := BootOps(d, generated).0;
    var d' := RunOps(d, ops[..cut]);
    if !d.cert.Absent? && !Live(d) && Completable(d) {
      assert ops == [RenameKey] + DISCARD_OPS;
      RunOne(d, RenameKey);
      TailCut(d, [RenameKey], cut);
      BootKeepsArchives(d, ops[..cut]);
      assert Archived(d', key) == Archived(d, key);
    } else {
      assert forall i | 0 <= i < |ops| :: Aside(ops[i]);
      AsideKeepsPair(d, ops[..cut]);
    }
  }

  lemma {:induction false} BootKeepsArchives(d: Disk, ops: seq<Op>)
    requires forall i | 0 <= i < |ops| :: !ArchiveOp(ops[i])
    ensures RunOps(d, ops).archives == d.archives
    decreases |ops|
  {
    if ops != [] {
      BootKeepsArchives(d, ops[..|ops| - 1]);
      assert !ArchiveOp(ops[|ops| - 1]);
    }
  }

  /**
   How a key comes to be exposed and lost. A first import fails between its renames and cannot
   clean up; a second one crashes while staging, and the boot after it promotes that staged key
   and fails, since the certificate is the first one's; a third import, of the first pair again,
   crashes while staging, and the boot after it completes the first pair over the promoted key.
   The third import needs a server that is up although its boot failed, which takes `api.tls`
   off and DNS over TLS on (crates/fastadhunter/src/main.rs:528-545).
   */
  lemma PromotedKeyCanBeLost(empty: Disk, one: Pair, other: Pair)
    requires empty == Disk(Absent, Absent, Absent, Absent, Absent, map[])
    requires one == Pair(Cert(1, 1), 1) && other == Pair(Cert(3, 3), 3)
    ensures var failed := RunOps(empty, StageOps(one) + [TearMarker, FillMarker(1), RenameCert]);
            var staged := RunOps(failed, StageOps(other)[..3]);
            var promoted := RunOps(staged, LoadOps(staged));
            var booted := RunOps(promoted, StageOps(one)[..3] + [RenameKey] + DISCARD_OPS);
            && promoted.key == Whole(3) && !BootOps(staged, other).1
            && Exposed(RunOps(promoted, StageOps(one)[..3]), 3)
            && BootOps(RunOps(promoted, StageOps(one)[..3]), other) == ([RenameKey] + DISCARD_OPS, true)
            && booted.key == Whole(1) && !Archived(booted, 3)
  {
    hide RunOps;
    var failed := RunOps(empty, StageOps(one) + [TearMarker, FillMarker(1), RenameCert]);
    StageResult(empty, one);
    RunOpsConcat(empty, StageOps(one), [TearMarker, FillMarker(1), RenameCert]);
    RunThree(RunOps(empty, StageOps(one)), TearMarker, FillMarker(1), RenameCert);
    assert StageOps(other)[..3] == [DropKeyTmp, TearKeyTmp, FillKeyTmp(3)];
    RunThree(failed, DropKeyTmp, TearKeyTmp, FillKeyTmp(3));
    var staged := RunOps(failed, StageOps(other)[..3]);
    RunOne(staged, RenameKey);
    var promoted := RunOps(staged, LoadOps(staged));
    assert StageOps(one)[..3] == [DropKeyTmp, TearKeyTmp, FillKeyTmp(1)];
    RunThree(promoted, DropKeyTmp, TearKeyTmp, FillKeyTmp(1));
    var restaged := RunOps(promoted, StageOps(one)[..3]);
    RunNone(restaged);
    assert [] + [RenameKey] + DISCARD_OPS == [RenameKey] + DISCARD_OPS;
    assert StageOps(one)[..3] + [RenameKey] + DISCARD_OPS
        == StageOps(one)[..3] + [RenameKey, DropCertTmp, DropKeyTmp];
    RunOpsConcat(promoted, StageOps(one)[..3], [RenameKey, DropCertTmp, DropKeyTmp]);
    RunThree(restaged, RenameKey, DropCertTmp, DropKeyTmp);
  }

  lemma RunThree(d: Disk, a: Op, b: Op, c: Op)
    ensures RunOps(d, [a, b, c]) == Perform(Perform(Perform(d, a), b), c)
  {
    RunOne(d, a);
    assert [a, b][..1] == [a];
    assert RunOps(d, [a, b]) == Perform(Perform(d, a), b);
    assert [a, b, c][..2] == [a, b];
  }

  // ---------- Every history ----------

  lemma RemembersAll(a: View, b: View, c: View)
    requires Remembers(a, b) && Remembers(b, c)
    ensures Remembers(a, c)
  {
  }

  /**
   Any number of installs, boots and opens, each with whatever failures its calls meet, and
   each cut by a crash in any state it passed through or left to finish. After every one of them
   no key that was ever served is lost, and none that was ever in the key file, unless some boot
   met files that expose it; and no archive found by one of them is ever changed afterwards.
   */
  method AnyHistory(initial: Disk, rounds: nat) returns (history: seq<View>)
    requires |initial.archives| <= MAX_ARCHIVES
    ensures |history| == rounds + 1 && history[0] == FirstView(initial)
    ensures forall i | 0 <= i < |history| :: Safe(history[i])
    ensures forall i, j | 0 <= i <= j < |history| :: Remembers(history[i], history[j])
  {
    hide Safe, Live, Intact;
    history := [FirstView(initial)];
    assert Remembers(history[0], history[0]) by { RemembersItself(history[0]); }
    for n := 0 to rounds
      invariant |history| == n + 1 && history[0] == FirstView(initial)
      invariant forall i | 0 <= i < |history| :: Safe(history[i])
      invariant forall i, j | 0 <= i <= j < |history| :: Remembers(history[i], history[j])
    {
      var next := AnyOperation(history[n]);
      forall i | 0 <= i <= n ensures Remembers(history[i], next) {
        RemembersAll(history[i], history[n], next);
      }
      RemembersItself(next);
      hide Remembers;
      history := history + [next];
    }
  }

  lemma RemembersItself(v: View)
    ensures Remembers(v, v)
  {
  }

  /** One operation on the files, with any failures, cut by a crash anywhere or not at all. */
  method AnyOperation(view: View) returns (next: View)
    requires Safe(view)
    ensures Safe(next) && Remembers(view, next)
  {
    hide Safe, Live, Remembers;
    var dir := new PairDirectory(view, false);
    var choice, pair, stamp := AnyInput();
    if choice == 0 {
      var _ := dir.InstallApiPair(pair, stamp);
    } else if choice == 1 {
      var _ := dir.InstallCa(pair, stamp);
    } else if choice == 2 {
      var _ := dir.LoadOrGenerate(pair);
    } else {
      var _ := dir.OpenCa();
    }
    var crashedIn: int := *;
    next := if 0 <= crashedIn < |dir.past| then dir.past[crashedIn] else dir.Now();
  }

  /** An operation, a pair whose halves match, and a time, all arbitrary. */
  method AnyInput() returns (choice: int, pair: Pair, stamp: int)
    ensures Matches(pair.cert, pair.key)
  {
    choice, stamp := *, *;
    var fingerprint: nat, key: nat := *, *;
    pair := Pair(Cert(fingerprint, key), key);
  }
}
