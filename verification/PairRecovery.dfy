/**
 Crash recovery of the API pair: crates/fah-certs/src/store.rs and api.rs.

 Each operation of the source is the sequence of disk operations it performs when none of
 them fails; a crash cuts the sequence anywhere. `PairStore` proves that the source's own
 control flow performs exactly these sequences.
 */
module PairRecovery {
  import opened PairDisk

  // ---------- What each operation does to the disk ----------

  function StageOps(pair: Pair): seq<Op> {
    [DropKeyTmp, TearKeyTmp, FillKeyTmp(pair.key), TearCertTmp, FillCertTmp(pair.cert)]
  }

  function CommitOps(): seq<Op> {
    [RenameCert, RenameKey]
  }

  function ArchiveOps(d: Disk, name: Name): seq<Op> {
    if NoPair(d) then []
    else
      [MakeArchive(name)]
      + (if d.cert.Absent? then [] else [TearArchiveCert(name), CopyToArchiveCert(name)])
      + (if d.key.Absent? then [] else [TearArchiveKey(name), CopyToArchiveKey(name)])
  }

  /** `install_api_pair`. */
  function ImportOps(d: Disk, pair: Pair, name: Name): seq<Op> {
    StageOps(pair) + ArchiveOps(d, name) + [TearMarker, FillMarker(pair.cert.fingerprint)] + CommitOps()
  }

  /** `install_api_pair` when the archive is full: the staged files are discarded again. */
  function RefusedOps(pair: Pair): seq<Op> {
    StageOps(pair) + DISCARD_OPS
  }

  predicate Refuses(d: Disk) {
    !NoPair(d) && |d.archives| >= MAX_ARCHIVES
  }

  /** `install_ca`. */
  function InstallCaOps(d: Disk, pair: Pair, name: Name): seq<Op> {
    StageOps(pair) + ArchiveOps(d, name) + CommitOps()
  }

  predicate NeedsKey(d: Disk) {
    !d.cert.Absent? && d.key.Absent? && !d.keyTmp.Absent?
  }

  /** The first thing `load_pair` does: finish an interrupted generation. */
  function LoadOps(d: Disk): seq<Op> {
    if NeedsKey(d) then [RenameKey] else []
  }

  const DISCARD_OPS: seq<Op> := [DropCertTmp, DropKeyTmp]

  /** `load_or_generate`, with `generated` the pair it would generate; the flag says whether it succeeds. */
  function BootOps(d: Disk, generated: Pair): (seq<Op>, bool) {
    var loaded := RunOps(d, LoadOps(d));
    if NoPair(loaded) then (LoadOps(d) + StageOps(generated) + CommitOps() + [DropMarker] + DISCARD_OPS, true)
    else if loaded.cert.Absent? || loaded.key.Absent? then (LoadOps(d), false)
    else if Live(loaded) then (LoadOps(d) + DISCARD_OPS, true)
    else if Completable(loaded) then (LoadOps(d) + [RenameKey] + DISCARD_OPS, true)
    else (LoadOps(d), false)
  }

  /** `CertStore::open` on the authority's files. */
  function OpenCaOps(d: Disk): (seq<Op>, bool) {
    var loaded := RunOps(d, LoadOps(d));
    if NoPair(loaded) then (LoadOps(d), true)
    else if Live(loaded) then (LoadOps(d) + DISCARD_OPS, true)
    else (LoadOps(d), false)
  }

  // ---------- What a disk will recover to ----------

  datatype Outlook = Recovers(pair: Pair) | Empty | Stuck

  /** The pair the next boot will serve. */
  function Forecast(d: Disk): Outlook {
    if Live(d) then Recovers(LivePair(d))
    else if Completable(d) then Recovers(Pair(d.cert.content, d.keyTmp.content))
    else if NoPair(d) then Empty
    else Stuck
  }

  /** Where a server that has booted, or has finished an import, leaves its files. */
  predicate Settled(d: Disk) {
    Live(d) || NoPair(d)
  }

  // ---------- Operations that leave the live files alone ----------

  predicate Aside(op: Op) {
    !(|| op.DropCert? || op.RenameCert? || op.TearCert? || op.RestoreCert?
      || op.RenameKey? || op.TearKey? || op.RestoreKey?)
  }

  predicate OffStage(op: Op) {
    !(op.DropCertTmp? || op.DropKeyTmp? || op.TearCertTmp? || op.FillCertTmp? || op.TearKeyTmp? || op.FillKeyTmp?)
  }

  lemma {:induction false} AsideKeepsPair(d: Disk, ops: seq<Op>)
    requires forall i | 0 <= i < |ops| :: Aside(ops[i])
    ensures RunOps(d, ops).cert == d.cert && RunOps(d, ops).key == d.key
    decreases |ops|
  {
    if ops != [] {
      AsideKeepsPair(d, ops[..|ops| - 1]);
      assert Aside(ops[|ops| - 1]);
    }
  }

  lemma {:induction false} OffStageKeepsStaged(d: Disk, ops: seq<Op>)
    requires forall i | 0 <= i < |ops| :: Aside(ops[i]) && OffStage(ops[i])
    ensures RunOps(d, ops).certTmp == d.certTmp && RunOps(d, ops).keyTmp == d.keyTmp
    decreases |ops|
  {
    if ops != [] {
      OffStageKeepsStaged(d, ops[..|ops| - 1]);
      assert Aside(ops[|ops| - 1]) && OffStage(ops[|ops| - 1]);
    }
  }

  lemma StageResult(d: Disk, pair: Pair)
    ensures RunOps(d, StageOps(pair)) == d.(keyTmp := Whole(pair.key), certTmp := Whole(pair.cert))
  {
    var ops := StageOps(pair);
    assert ops[..4][..3] == ops[..3] && ops[..3][..2] == ops[..2] && ops[..2][..1] == ops[..1] && ops[..1][..0] == [];
    assert RunOps(d, ops[..1]) == d.(keyTmp := Absent);
    assert RunOps(d, ops[..2]) == d.(keyTmp := Torn);
    assert RunOps(d, ops[..3]) == d.(keyTmp := Whole(pair.key));
    assert RunOps(d, ops[..4]) == d.(keyTmp := Whole(pair.key), certTmp := Torn);
  }

  /**
   Staging, then steps that touch neither the live nor the staged files, then the two
   renames: the shape of a generation, an import and an authority install.
   */
  function ReplaceOps(pair: Pair, between: seq<Op>): seq<Op> {
    StageOps(pair) + between + CommitOps()
  }

  lemma ReplaceCut(d: Disk, pair: Pair, between: seq<Op>, cut: nat)
    requires forall i | 0 <= i < |between| :: Aside(between[i]) && OffStage(between[i])
    requires cut <= |ReplaceOps(pair, between)|
    ensures var d' := RunOps(d, ReplaceOps(pair, between)[..cut]);
            var last := |ReplaceOps(pair, between)|;
            && (cut < last - 1 ==> d'.cert == d.cert && d'.key == d.key)
            && (cut == last - 1 ==> d'.cert == Whole(pair.cert) && d'.key == d.key && d'.keyTmp == Whole(pair.key))
            && (cut == last ==> d'.cert == Whole(pair.cert) && d'.key == Whole(pair.key)
                                && d'.certTmp == Absent && d'.keyTmp == Absent)
  {
    hide RunOps;
    var ops := ReplaceOps(pair, between);
    var last := |ops|;
    var staged := StageOps(pair) + between;
    if cut < last - 1 {
      assert forall i | 0 <= i < cut :: ops[..cut][i] == staged[i] && Aside(staged[i]);
      AsideKeepsPair(d, ops[..cut]);
    } else {
      var ready := RunOps(RunOps(d, StageOps(pair)), between);
      RunOpsConcat(d, StageOps(pair), between);
      StageResult(d, pair);
      AsideKeepsPair(RunOps(d, StageOps(pair)), between);
      OffStageKeepsStaged(RunOps(d, StageOps(pair)), between);
      assert ready == RunOps(d, staged);
      RunOne(ready, RenameCert);
      RunOpsConcat(d, staged, [RenameCert]);
      assert ops[..last - 1] == staged + [RenameCert];
      if cut == last {
        RunOne(Perform(ready, RenameCert), RenameKey);
        RunOpsConcat(d, staged + [RenameCert], [RenameKey]);
        assert ops[..last] == staged + [RenameCert] + [RenameKey];
      }
    }
  }

  lemma RunOne(d: Disk, op: Op)
    ensures RunOps(d, [op]) == Perform(d, op)
  {
    assert [op][..0] == [];
  }

  lemma BetweenIsAside(d: Disk, pair: Pair, name: Name)
    ensures ImportOps(d, pair, name)
         == ReplaceOps(pair, ArchiveOps(d, name) + [TearMarker, FillMarker(pair.cert.fingerprint)])
    ensures InstallCaOps(d, pair, name) == ReplaceOps(pair, ArchiveOps(d, name))
    ensures forall i | 0 <= i < |ArchiveOps(d, name)| ::
              Aside(ArchiveOps(d, name)[i]) && OffStage(ArchiveOps(d, name)[i])
  {
  }

  // ---------- An import, cut anywhere ----------

  /** The staged key file once `cut` operations of an import have run. */
  function StagedKey(d: Disk, pair: Pair, cut: nat): File<Key> {
    if cut == 0 then d.keyTmp else if cut == 1 then Absent else if cut == 2 then Torn else Whole(pair.key)
  }

  lemma StageCut(d: Disk, pair: Pair, cut: nat)
    requires cut <= 5
    ensures RunOps(d, StageOps(pair)[..cut]).keyTmp == StagedKey(d, pair, cut)
  {
    var ops := StageOps(pair);
    assert ops[..0] == [] && ops[..5] == ops;
    if cut == 5 {
      StageResult(d, pair);
    } else {
      assert ops[..4][..3] == ops[..3] && ops[..3][..2] == ops[..2] && ops[..2][..1] == ops[..1] && ops[..1][..0] == [];
      assert RunOps(d, ops[..1]).keyTmp == Absent;
      assert RunOps(d, ops[..2]).keyTmp == Torn;
      assert RunOps(d, ops[..3]).keyTmp == Whole(pair.key);
    }
  }

  /** Staging and what follows it off stage, cut anywhere: the live files stay, the staged key is known. */
  lemma StagedCut(d: Disk, pair: Pair, between: seq<Op>, cut: nat)
    requires forall i | 0 <= i < |between| :: Aside(between[i]) && OffStage(between[i])
    requires cut <= 5 + |between|
    ensures var d' := RunOps(d, (StageOps(pair) + between)[..cut]);
            d'.cert == d.cert && d'.key == d.key && d'.keyTmp == StagedKey(d, pair, cut)
  {
    hide RunOps;
    var ops := StageOps(pair) + between;
    assert forall i | 0 <= i < |ops| :: Aside(ops[i]);
    AsideKeepsPair(d, ops[..cut]);
    if cut <= 5 {
      assert ops[..cut] == StageOps(pair)[..cut];
      StageCut(d, pair, cut);
    } else {
      var rest := between[..cut - 5];
      assert ops[..cut] == StageOps(pair) + rest;
      RunOpsConcat(d, StageOps(pair), rest);
      StageResult(d, pair);
      OffStageKeepsStaged(RunOps(d, StageOps(pair)), rest);
    }
  }

  /**
   An import over any files, cut anywhere. From the rename of the certificate on, the new pair
   is what the next boot recovers. Before it the live files are untouched, and what they
   recover to is decided by the key that the import has staged so far in place of the old one.
   */
  lemma ImportCut(d: Disk, pair: Pair, name: Name, cut: nat)
    requires Matches(pair.cert, pair.key)
    requires cut <= |ImportOps(d, pair, name)|
    ensures var d', last := RunOps(d, ImportOps(d, pair, name)[..cut]), |ImportOps(d, pair, name)|;
            && (cut < last - 1 ==> d'.cert == d.cert && d'.key == d.key && d'.keyTmp == StagedKey(d, pair, cut))
            && (cut >= last - 1 ==> Forecast(d') == Recovers(pair))
            && (cut == last ==> Live(d'))
  {
    hide RunOps, ArchiveOps, StageOps;
    var between := ArchiveOps(d, name) + [TearMarker, FillMarker(pair.cert.fingerprint)];
    BetweenIsAside(d, pair, name);
    ReplaceCut(d, pair, between, cut);
    StageLength(pair);
    var ops := ImportOps(d, pair, name);
    if cut < |ops| - 1 {
      assert ops[..cut] == (StageOps(pair) + between)[..cut];
      StagedCut(d, pair, between, cut);
    }
  }

  lemma StageLength(pair: Pair)
    ensures |StageOps(pair)| == 5
  {
  }

  /** An import that is refused, cut anywhere or not at all. */
  lemma RefusedCut(d: Disk, pair: Pair, cut: nat)
    requires cut <= 7
    ensures |RefusedOps(pair)| == 7
    ensures var d' := RunOps(d, RefusedOps(pair)[..cut]);
            d'.cert == d.cert && d'.key == d.key && d'.keyTmp == if cut < 7 then StagedKey(d, pair, cut) else Absent
  {
    hide RunOps;
    var ops := RefusedOps(pair);
    assert forall i | 0 <= i < |ops| :: Aside(ops[i]);
    AsideKeepsPair(d, ops[..cut]);
    if cut <= 5 {
      assert ops[..cut] == StageOps(pair)[..cut];
      StageCut(d, pair, cut);
    } else {
      StageResult(d, pair);
      var staged := RunOps(d, StageOps(pair));
      RunOne(staged, DropCertTmp);
      RunOpsConcat(d, StageOps(pair), [DropCertTmp]);
      assert ops[..6] == StageOps(pair) + [DropCertTmp];
      RunOne(Perform(staged, DropCertTmp), DropKeyTmp);
      RunOpsConcat(d, ops[..6], [DropKeyTmp]);
      assert ops[..7] == ops[..6] + [DropKeyTmp];
    }
  }

  /** The staged key completes the certificate that an earlier crash left without its own. */
  predicate Completes(d: Disk, key: Key) {
    d.cert.Whole? && Matches(d.cert.content, key)
  }

  /**
   Over any files that recover, an import crashed after `cut` operations: from the rename of the
   certificate on they recover to the new pair, and before it to what they recovered to, except
   that they are stuck exactly when they were unsettled, the import had begun to stage, and the key
   it has staged does not complete the certificate that is there. Settled files never are.
   */
  lemma ImportIsAtomicIff(d: Disk, pair: Pair, name: Name, cut: nat)
    requires !Forecast(d).Stuck? && Matches(pair.cert, pair.key)
    requires cut <= |ImportOps(d, pair, name)|
    ensures var d' := RunOps(d, ImportOps(d, pair, name)[..cut]);
            Forecast(d') ==
            if cut >= |ImportOps(d, pair, name)| - 1 then Recovers(pair)
            else if !Settled(d) && cut >= 1 && !(cut >= 3 && Completes(d, pair.key)) then Stuck
            else Forecast(d)
  {
    hide RunOps, ArchiveOps;
    ImportCut(d, pair, name, cut);
  }

  /** The same for an import that is refused: over unsettled files its own clean-up strands them. */
  lemma RefusalStrandsIff(d: Disk, pair: Pair, cut: nat)
    requires !Forecast(d).Stuck? && Matches(pair.cert, pair.key) && cut <= 7
    ensures var d' := RunOps(d, RefusedOps(pair)[..cut]);
            Forecast(d') ==
            if !Settled(d) && cut >= 1 && !(3 <= cut < 7 && Completes(d, pair.key)) then Stuck else Forecast(d)
  {
    hide RunOps;
    RefusedCut(d, pair, cut);
  }

  /** A crash between the renames of an earlier import, met by a new import that is cut after one operation. */
  lemma SecondImportCanStrand(d: Disk, pair: Pair, name: Name)
    requires d == Disk(Whole(Cert(1, 1)), Whole(2), Absent, Whole(1), Absent, map[])
    requires pair == Pair(Cert(3, 3), 3)
    ensures Forecast(d) == Recovers(Pair(Cert(1, 1), 1))
    ensures Forecast(RunOps(d, ImportOps(d, pair, name)[..1])).Stuck?
  {
    hide RunOps;
    ImportIsAtomicIff(d, pair, name, 1);
  }

  // ---------- A boot is atomic, and succeeds ----------

  lemma BootCut(d: Disk, generated: Pair, cut: nat)
    requires !Forecast(d).Stuck? && Matches(generated.cert, generated.key)
    requires cut <= |BootOps(d, generated).0|
    ensures BootOps(d, generated).1
    ensures var d' := RunOps(d, BootOps(d, generated).0[..cut]);
            if Forecast(d).Recovers? then Forecast(d') == Forecast(d)
            else Forecast(d') == Empty || Forecast(d') == Recovers(generated)
    ensures cut == |BootOps(d, generated).0| ==>
              var d' := RunOps(d, BootOps(d, generated).0[..cut]);
              Live(d') && (Forecast(d).Empty? ==> LivePair(d') == generated)
              && d'.certTmp == Absent && d'.keyTmp == Absent
  {
    hide RunOps;
    RunNone(d);
    var (ops, _) := BootOps(d, generated);
    if NeedsKey(d) {
      RunOne(d, RenameKey);
      assert Live(RunOps(d, LoadOps(d)));
      assert ops == [RenameKey] + DISCARD_OPS;
      TailCut(d, [RenameKey], cut);
    } else {
      assert LoadOps(d) == [];
      if NoPair(d) {
        GenerateCut(d, generated, cut);
      } else if Live(d) {
        assert ops == [] + DISCARD_OPS;
        TailCut(d, [], cut);
      } else {
        assert ops == [RenameKey] + DISCARD_OPS;
        RunOne(d, RenameKey);
        TailCut(d, [RenameKey], cut);
      }
    }
  }

  lemma RunNone(d: Disk)
    ensures RunOps(d, []) == d
  {
  }

  /** A short recovery sequence followed by discarding the staged files, cut anywhere. */
  lemma TailCut(d: Disk, head: seq<Op>, cut: nat)
    requires head == [] || head == [RenameKey]
    requires cut <= |head| + 2
    ensures var d', recovered := RunOps(d, (head + DISCARD_OPS)[..cut]), RunOps(d, head);
            && (cut < |head| ==> d' == d)
            && (cut >= |head| ==> d'.cert == recovered.cert && d'.key == recovered.key)
            && (cut == |head| + 2 ==> d'.certTmp == Absent && d'.keyTmp == Absent)
  {
    hide RunOps;
    var ops := head + DISCARD_OPS;
    RunNone(d);
    if cut < |head| {
      assert ops[..cut] == [];
    } else {
      var rest := ops[|head|..cut];
      assert ops[..cut] == head + rest;
      RunOpsConcat(d, head, rest);
      AsideKeepsPair(RunOps(d, head), rest);
      if cut == |head| + 2 {
        assert rest == [DropCertTmp] + [DropKeyTmp];
        RunOpsConcat(RunOps(d, head), [DropCertTmp], [DropKeyTmp]);
        RunOne(RunOps(d, head), DropCertTmp);
        RunOne(Perform(RunOps(d, head), DropCertTmp), DropKeyTmp);
      }
    }
  }

  lemma GenerateCut(d: Disk, generated: Pair, cut: nat)
    requires NoPair(d) && Matches(generated.cert, generated.key)
    requires cut <= |BootOps(d, generated).0|
    ensures var d' := RunOps(d, BootOps(d, generated).0[..cut]);
            && (Forecast(d') == Empty || Forecast(d') == Recovers(generated))
            && (cut == |BootOps(d, generated).0| ==>
                  Live(d') && LivePair(d') == generated && d'.certTmp == Absent && d'.keyTmp == Absent)
  {
    hide RunOps;
    RunNone(d);
    var (ops, _) := BootOps(d, generated);
    var replace := ReplaceOps(generated, []);
    var tail := [DropMarker] + DISCARD_OPS;
    assert ops == replace + tail;
    if cut <= |replace| {
      assert ops[..cut] == replace[..cut];
      ReplaceCut(d, generated, [], cut);
    } else {
      var rest := tail[..cut - |replace|];
      assert ops[..cut] == replace + rest && replace[..|replace|] == replace;
      RunOpsConcat(d, replace, rest);
      ReplaceCut(d, generated, [], |replace|);
      AsideKeepsPair(RunOps(d, replace), rest);
      if cut == |ops| {
        assert rest == [DropMarker] + DISCARD_OPS;
        RunOpsConcat(RunOps(d, replace), [DropMarker], DISCARD_OPS);
        assert [] + DISCARD_OPS == DISCARD_OPS && DISCARD_OPS[..2] == DISCARD_OPS;
        TailCut(RunOps(RunOps(d, replace), [DropMarker]), [], 2);
      }
    }
  }

  /** A boot succeeds exactly on the disks that are not stuck; a failed one keeps the certificate. */
  lemma BootSucceedsIff(d: Disk, generated: Pair)
    requires Matches(generated.cert, generated.key)
    ensures BootOps(d, generated).1 <==> !Forecast(d).Stuck?
    ensures Forecast(d).Stuck? ==> RunOps(d, BootOps(d, generated).0).cert == d.cert
  {
    hide RunOps;
    RunNone(d);
    RunOne(d, RenameKey);
  }

  // ---------- Runs ----------

  /** One life of the server's files: an operation that completes, or is cut short by a crash. */
  datatype Event =
    | Boot(generated: Pair, crash: Crash)
    | Import(pair: Pair, name: Name, crash: Crash)

  datatype Crash = Completed | CutAfter(ops: nat)

  function EventOps(d: Disk, e: Event): seq<Op> {
    match e
    case Boot(generated, _) => BootOps(d, generated).0
    case Import(pair, name, _) => if Refuses(d) then RefusedOps(pair) else ImportOps(d, pair, name)
  }

  function Performed(ops: seq<Op>, crash: Crash): seq<Op> {
    match crash
    case Completed => ops
    case CutAfter(n) => if n <= |ops| then ops[..n] else ops
  }

  function After(d: Disk, e: Event): Disk {
    RunOps(d, Performed(EventOps(d, e), e.crash))
  }

  function AfterAll(d: Disk, events: seq<Event>): Disk {
    if events == [] then d else After(AfterAll(d, events[..|events| - 1]), events[|events| - 1])
  }

  predicate Offers(e: Event, pair: Pair) {
    match e
    case Boot(generated, _) => generated == pair
    case Import(imported, _, _) => imported == pair
  }

  /** Every pair offered is a certificate with its key. */
  predicate Matched(events: seq<Event>) {
    forall i | 0 <= i < |events| ::
      match events[i]
      case Boot(generated, _) => Matches(generated.cert, generated.key)
      case Import(pair, _, _) => Matches(pair.cert, pair.key)
  }

  /** The event strands the files it meets; see `ImportIsAtomicIff` and `RefusalStrandsIff`. */
  predicate Strands(d: Disk, e: Event) {
    match e
    case Boot(_, _) => false
    case Import(pair, name, crash) =>
      var ops := EventOps(d, e);
      var cut := |Performed(ops, crash)|;
      && !Settled(d) && 1 <= cut
      && !(3 <= cut && Completes(d, pair.key) && cut < |ops|)
      && (Refuses(d) || cut < |ops| - 1)
  }

  predicate NoneStrands(d: Disk, events: seq<Event>) {
    forall i | 0 <= i < |events| :: !Strands(AfterAll(d, events[..i]), events[i])
  }

  lemma EventOutlook(d: Disk, e: Event)
    requires !Forecast(d).Stuck? && Matched([e])
    ensures Forecast(After(d, e)).Stuck? <==> Strands(d, e)
    ensures var outlook := Forecast(After(d, e));
            outlook.Stuck? || outlook == Forecast(d) || (outlook.Recovers? && Offers(e, outlook.pair))
    ensures e.crash == Completed && (e.Boot? || Settled(d)) ==> Settled(After(d, e))
  {
    hide RunOps, ImportOps, BootOps, RefusedOps;
    assert Matched([e]) && [e][0] == e;
    var ops := EventOps(d, e);
    var cut := |Performed(ops, e.crash)|;
    assert Performed(ops, e.crash) == ops[..cut];
    match e {
      case Boot(generated, _) =>
        BootCut(d, generated, cut);
      case Import(pair, name, _) =>
        if Refuses(d) {
          RefusedCut(d, pair, 0);
          RefusedCut(d, pair, cut);
          RefusalStrandsIff(d, pair, cut);
        } else {
          ImportCut(d, pair, name, cut);
          ImportIsAtomicIff(d, pair, name, cut);
        }
    }
  }

  predicate NeverStuck(d: Disk, events: seq<Event>) {
    forall n | 0 <= n <= |events| :: !Forecast(AfterAll(d, events[..n])).Stuck?
  }

  lemma NeverStuckLast(d: Disk, events: seq<Event>, e: Event)
    ensures NeverStuck(d, events + [e]) <==> NeverStuck(d, events) && !Forecast(AfterAll(d, events + [e])).Stuck?
  {
    hide AfterAll, Forecast;
    var longer := events + [e];
    assert longer[..|longer|] == longer && forall k | 0 <= k <= |events| :: longer[..k] == events[..k];
  }

  lemma NoneStrandsLast(d: Disk, events: seq<Event>, e: Event)
    ensures NoneStrands(d, events + [e]) <==> NoneStrands(d, events) && !Strands(AfterAll(d, events), e)
  {
    hide AfterAll, Strands;
    var longer := events + [e];
    assert longer[|events|] == e && longer[..|events|] == events;
    assert forall k | 0 <= k < |events| :: longer[k] == events[k] && longer[..k] == events[..k];
  }

  /**
   Over any history of boots and imports, each crashed anywhere and each met by whatever the
   one before left: the files are recoverable all along exactly when no import strands them.
   */
  lemma {:induction false} NeverStuckIff(d: Disk, events: seq<Event>)
    requires !Forecast(d).Stuck? && Matched(events)
    ensures NeverStuck(d, events) <==> NoneStrands(d, events)
    decreases |events|
  {
    hide RunOps, EventOps, Forecast, Strands, After;
    if events == [] {
      assert events[..0] == [];
    } else {
      var before, e := events[..|events| - 1], events[|events| - 1];
      assert events == before + [e];
      NeverStuckIff(d, before);
      NeverStuckLast(d, before, e);
      NoneStrandsLast(d, before, e);
      assert Matched([e]) by { assert Matched(events); }
      if NeverStuck(d, before) {
        StandsNow(d, before);
        EventOutlook(AfterAll(d, before), e);
      }
    }
  }

  lemma StandsNow(d: Disk, events: seq<Event>)
    requires NeverStuck(d, events)
    ensures !Forecast(AfterAll(d, events)).Stuck?
  {
    assert events[..|events|] == events;
  }

  /**
   After such a history the next boot recovers the pair the files began with, or one that was
   offered whole: never a mixture of two.
   */
  lemma {:induction false} CrashesNeverStrand(d: Disk, events: seq<Event>)
    requires !Forecast(d).Stuck? && Matched(events) && NoneStrands(d, events)
    ensures !Forecast(AfterAll(d, events)).Stuck?
    ensures var outlook := Forecast(AfterAll(d, events));
            || outlook == Forecast(d)
            || (outlook.Recovers? && exists i | 0 <= i < |events| :: Offers(events[i], outlook.pair))
    decreases |events|
  {
    hide RunOps, EventOps, Forecast, Strands, After;
    if events != [] {
      var n := |events| - 1;
      var before, e := events[..n], events[n];
      assert forall k | 0 <= k <= n :: before[..k] == events[..k];
      assert forall k | 0 <= k < n :: before[k] == events[k];
      CrashesNeverStrand(d, before);
      assert Matched([e]) by { assert Matched(events); }
      EventOutlook(AfterAll(d, before), e);
      var outlook := Forecast(AfterAll(d, events));
      if outlook == Forecast(AfterAll(d, before)) && outlook != Forecast(d) {
        var i :| 0 <= i < n && Offers(before[i], outlook.pair);
        assert Offers(events[i], outlook.pair);
      }
    }
  }

  /** After such a history the next boot to complete succeeds, and serves the forecast pair. */
  lemma NextBootServes(d: Disk, events: seq<Event>, generated: Pair)
    requires !Forecast(d).Stuck? && Matched(events) && NoneStrands(d, events)
    requires Matches(generated.cert, generated.key)
    ensures var crashed := AfterAll(d, events);
            var booted := After(crashed, Boot(generated, Completed));
            && BootOps(crashed, generated).1
            && Live(booted)
            && LivePair(booted) == if Forecast(crashed).Recovers? then Forecast(crashed).pair else generated
  {
    hide RunOps, BootOps, AfterAll, NoneStrands, Matched;
    CrashesNeverStrand(d, events);
    var crashed := AfterAll(d, events);
    var ops := BootOps(crashed, generated).0;
    assert ops[..|ops|] == ops;
    BootCut(crashed, generated, |ops|);
  }

  /** The last event ran to its end. */
  predicate IsUp(events: seq<Event>) {
    events == [] || events[|events| - 1].crash == Completed
  }

  /** Each import begins in a server that has booted its pair since the last crash. */
  predicate Booted(events: seq<Event>) {
    forall i | 0 <= i < |events| :: events[i].Import? ==> IsUp(events[..i])
  }

  /** Where every crash is followed by a boot of the pair before the next import, nothing strands. */
  lemma {:induction false} BootedNeverStrands(d: Disk, events: seq<Event>)
    requires Settled(d) && Matched(events) && Booted(events)
    ensures NoneStrands(d, events) && (IsUp(events) ==> Settled(AfterAll(d, events)))
    decreases |events|
  {
    hide RunOps, EventOps, Forecast, After;
    if events == [] {
    } else {
      var n := |events| - 1;
      var before, e := events[..n], events[n];
      assert forall k | 0 <= k <= n :: before[..k] == events[..k];
      assert forall k | 0 <= k < n :: before[k] == events[k];
      BootedNeverStrands(d, before);
      SettledIsNotStuck(d);
      CrashesNeverStrand(d, before);
      assert Matched([e]) by { assert Matched(events); }
      EventOutlook(AfterAll(d, before), e);
    }
  }

  lemma SettledIsNotStuck(d: Disk)
    requires Settled(d)
    ensures !Forecast(d).Stuck?
  {
  }

  // ---------- The authority's pair has no such recovery ----------

  /**
   A crash in an authority install leaves files that open again, unless it falls between the
   two renames of a replacement with a different key: then the certificate is new, the key
   is old, and `open` refuses them. What opens is the old files before the rename of the
   certificate, and the new pair from it on.
   */
  lemma CaOpensAfterCrashIff(d: Disk, pair: Pair, name: Name, cut: nat)
    requires Settled(d) && Matches(pair.cert, pair.key)
    requires cut <= |InstallCaOps(d, pair, name)|
    ensures var crashed, last := RunOps(d, InstallCaOps(d, pair, name)[..cut]), |InstallCaOps(d, pair, name)|;
            var files := RunOps(crashed, OpenCaOps(crashed).0);
            && (OpenCaOps(crashed).1 <==> !(cut == last - 1 && Live(d) && LivePair(d).key != pair.key))
            && (cut < last - 1 ==> files.cert == d.cert && files.key == d.key)
            && (cut >= last - 1 && OpenCaOps(crashed).1 ==> Live(files) && LivePair(files) == pair)
  {
    hide RunOps, ArchiveOps;
    BetweenIsAside(d, pair, name);
    ReplaceCut(d, pair, ArchiveOps(d, name), cut);
    var crashed := RunOps(d, InstallCaOps(d, pair, name)[..cut]);
    RunNone(crashed);
    RunOne(crashed, RenameKey);
    var head, ops := LoadOps(crashed), OpenCaOps(crashed).0;
    if ops != head {
      TailCut(crashed, head, |head| + 2);
      assert (head + DISCARD_OPS)[..|head| + 2] == ops;
    }
  }

  /** An authority replaced by another, and a crash between the two renames: nothing opens. */
  lemma ReplacedCaCanBeRefused(d: Disk, pair: Pair, name: Name)
    requires d == Disk(Whole(Cert(1, 1)), Whole(1), Absent, Absent, Absent, map[])
    requires pair == Pair(Cert(2, 2), 2)
    ensures var ops := InstallCaOps(d, pair, name);
            !OpenCaOps(RunOps(d, ops[..|ops| - 1])).1
  {
    hide RunOps;
    CaOpensAfterCrashIff(d, pair, name, |InstallCaOps(d, pair, name)| - 1);
  }

  // ---------- The imported marker ----------

  /** `read_api_source`: the marker names the live certificate. */
  predicate ReportsImported(d: Disk) {
    d.marker.Whole? && d.cert.Whole? && d.marker.content == d.cert.content.fingerprint
  }

  lemma {:induction false} MarkerComesFromOps(d: Disk, ops: seq<Op>)
    ensures var after := RunOps(d, ops);
            after.marker.Whole? ==> after.marker == d.marker || FillMarker(after.marker.content) in ops
    decreases |ops|
  {
    if ops != [] {
      MarkerComesFromOps(d, ops[..|ops| - 1]);
    }
  }

  predicate Writes(op: Op) {
    op.FillMarker? || op.TearMarker?
  }

  /** Without a write the marker stays or goes, and it stays unless it is dropped. */
  lemma {:induction false} UnwrittenMarker(d: Disk, ops: seq<Op>)
    requires forall i | 0 <= i < |ops| :: !Writes(ops[i])
    ensures RunOps(d, ops).marker == if DropMarker in ops then Absent else d.marker
    decreases |ops|
  {
    if ops != [] {
      UnwrittenMarker(d, ops[..|ops| - 1]);
      assert ops == ops[..|ops| - 1] + [ops[|ops| - 1]];
    }
  }

  /**
   The marker goes first: at whatever point an import is cut, a certificate it has put in place is
   already reported as imported.
   */
  lemma ImportIsMarkedFirst(d: Disk, pair: Pair, name: Name, crash: Crash)
    ensures var after := After(d, Import(pair, name, crash));
            after.cert != d.cert ==> after.cert == Whole(pair.cert) && ReportsImported(after)
  {
    hide RunOps, ArchiveOps, StageOps;
    if Refuses(d) {
      var ops := RefusedOps(pair);
      RefusedCut(d, pair, 7);
      assert ops == ops[..7];
      RefusedCut(d, pair, |Performed(ops, crash)|);
    } else {
      var ops, mark := ImportOps(d, pair, name), FillMarker(pair.cert.fingerprint);
      var cut := |Performed(ops, crash)|;
      assert Performed(ops, crash) == ops[..cut];
      BetweenIsAside(d, pair, name);
      ReplaceCut(d, pair, ArchiveOps(d, name) + [TearMarker, mark], cut);
      var head := StageOps(pair) + ArchiveOps(d, name) + [TearMarker];
      if cut >= |ops| - 1 {
        var tail := CommitOps()[..cut - |head| - 1];
        assert ops[..cut] == head + [mark] + tail;
        MarkStays(d, head, mark, tail);
      }
    }
  }

  lemma MarkStays(d: Disk, head: seq<Op>, mark: Op, tail: seq<Op>)
    requires mark.FillMarker? && forall i | 0 <= i < |tail| :: !Writes(tail[i]) && tail[i] != DropMarker
    ensures RunOps(d, head + [mark] + tail).marker == Whole(mark.fingerprint)
  {
    hide RunOps;
    RunOpsConcat(d, head, [mark]);
    RunOpsConcat(d, head + [mark], tail);
    RunOne(RunOps(d, head), mark);
    UnwrittenMarker(RunOps(d, head + [mark]), tail);
  }

  /** An import that completes is reported as one, whatever it met. */
  lemma CompletedImportIsReported(d: Disk, pair: Pair, name: Name)
    requires !Refuses(d)
    ensures var after := After(d, Import(pair, name, Completed));
            after.cert == Whole(pair.cert) && after.key == Whole(pair.key) && ReportsImported(after)
  {
    hide RunOps, ArchiveOps, StageOps;
    var ops, mark := ImportOps(d, pair, name), FillMarker(pair.cert.fingerprint);
    BetweenIsAside(d, pair, name);
    ReplaceCut(d, pair, ArchiveOps(d, name) + [TearMarker, mark], |ops|);
    assert ops[..|ops|] == ops;
    var head := StageOps(pair) + ArchiveOps(d, name) + [TearMarker];
    assert ops == head + [mark] + CommitOps();
    MarkStays(d, head, mark, CommitOps());
  }

  lemma BootNeverMarks(d: Disk, generated: Pair)
    ensures var ops := BootOps(d, generated).0; forall i | 0 <= i < |ops| :: !Writes(ops[i])
    ensures DropMarker in BootOps(d, generated).0 <==> NoPair(d)
  {
    hide RunOps;
    RunNone(d);
    RunOne(d, RenameKey);
    if NoPair(d) {
      var ops := BootOps(d, generated).0;
      assert ops == StageOps(generated) + CommitOps() + [DropMarker] + DISCARD_OPS;
      assert ops[7] == DropMarker;
    }
  }

  /**
   What a boot generates is never reported as imported once the boot completes. Cut short, it is
   only under the fingerprint of the marker the boot met. What a boot recovers is reported as before.
   */
  lemma BootReports(d: Disk, generated: Pair, crash: Crash)
    ensures var after := After(d, Boot(generated, crash));
            && (ReportsImported(after) ==> after.marker == d.marker)
            && (NoPair(d) && crash == Completed ==> !ReportsImported(after))
            && (after.cert == Whole(generated.cert) && ReportsImported(after) ==>
                  d.marker == Whole(generated.cert.fingerprint))
            && (!NoPair(d) && after.cert == d.cert ==> (ReportsImported(after) <==> ReportsImported(d)))
  {
    hide RunOps, BootOps;
    BootNeverMarks(d, generated);
    UnwrittenMarker(d, Performed(BootOps(d, generated).0, crash));
  }

  lemma ImportMarksItsOwn(d: Disk, pair: Pair, name: Name)
    ensures var ops := ImportOps(d, pair, name);
            forall i | 0 <= i < |ops| :: ops[i].FillMarker? ==> ops[i].fingerprint == pair.cert.fingerprint
  {
  }

  lemma RefusalNeverMarks(pair: Pair)
    ensures forall i | 0 <= i < |RefusedOps(pair)| :: !RefusedOps(pair)[i].FillMarker?
  {
  }

  lemma OnlyImportsMark(d: Disk, e: Event, fingerprint: nat)
    requires FillMarker(fingerprint) in Performed(EventOps(d, e), e.crash)
    ensures e.Import? && e.pair.cert.fingerprint == fingerprint
  {
    hide RunOps, BootOps, ImportOps, RefusedOps;
    var ops := EventOps(d, e);
    var i :| 0 <= i < |Performed(ops, e.crash)| && Performed(ops, e.crash)[i] == FillMarker(fingerprint);
    assert ops[i] == FillMarker(fingerprint);
    match e {
      case Boot(generated, _) => BootNeverMarks(d, generated);
      case Import(pair, name, _) =>
        ImportMarksItsOwn(d, pair, name);
        RefusalNeverMarks(pair);
    }
  }

  /**
   After any history, a certificate reported as imported carries the fingerprint of a pair
   that was imported, or of the marker the history began with.
   */
  lemma {:induction false} ReportedImportWasImported(d: Disk, events: seq<Event>)
    ensures var after := AfterAll(d, events);
            ReportsImported(after) ==>
              || after.marker == d.marker
              || exists i | 0 <= i < |events| ::
                   events[i].Import? && events[i].pair.cert.fingerprint == after.cert.content.fingerprint
    decreases |events|
  {
    hide RunOps, EventOps, Performed;
    MarkerHistory(d, events);
  }

  lemma {:induction false} MarkerHistory(d: Disk, events: seq<Event>)
    ensures var after := AfterAll(d, events);
            after.marker.Whole? ==>
              || after.marker == d.marker
              || exists i | 0 <= i < |events| ::
                   events[i].Import? && events[i].pair.cert.fingerprint == after.marker.content
    decreases |events|
  {
    hide RunOps, EventOps, Performed;
    if events != [] {
      var n := |events| - 1;
      var before := AfterAll(d, events[..n]);
      MarkerHistory(d, events[..n]);
      var after := AfterAll(d, events);
      MarkerComesFromOps(before, Performed(EventOps(before, events[n]), events[n].crash));
      if after.marker.Whole? && after.marker != before.marker {
        OnlyImportsMark(before, events[n], after.marker.content);
      } else if after.marker.Whole? && after.marker != d.marker {
        var i :| 0 <= i < n && events[..n][i].Import? && events[..n][i].pair.cert.fingerprint == after.marker.content;
        assert events[i] == events[..n][i];
      }
    }
  }
}
