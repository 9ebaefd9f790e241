/**
 The files of one certificate pair: the API server's or the authority's
 (crates/fah-certs/src/store.rs).

 The disk changes by atomic operations. A rename, a removal and the creation of a directory
 are atomic. A write or a copy is two operations, since a crash or a failure in the middle
 leaves a file that exists and does not parse.
 */
module PairDisk {

  /** A private key, by identity. */
  type Key = nat

  /** A certificate: its fingerprint, and the key whose public half it certifies. */
  datatype Cert = Cert(fingerprint: nat, certifies: Key)

  datatype Pair = Pair(cert: Cert, key: Key)

  predicate Matches(cert: Cert, key: Key) {
    cert.certifies == key
  }

  datatype File<+T> = Absent | Torn | Whole(content: T)

  datatype Archive = Archive(cert: File<Cert>, key: File<Key>)

  /** `{stamp}` for attempt 0, `{stamp}-{attempt}` afterwards. */
  datatype Name = Name(stamp: int, attempt: nat)

  datatype Disk = Disk(
    cert: File<Cert>,
    key: File<Key>,
    certTmp: File<Cert>,
    keyTmp: File<Key>,
    marker: File<nat>,
    archives: map<Name, Archive>)

  const MAX_ARCHIVES := 8
  const ARCHIVE_ATTEMPTS := 1024

  datatype Op =
    | DropCert
    | DropCertTmp
    | DropKeyTmp
    | DropMarker
    | TearCertTmp
    | FillCertTmp(cert: Cert)
    | TearKeyTmp
    | FillKeyTmp(key: Key)
    | TearMarker
    | FillMarker(fingerprint: nat)
    | RenameCert
    | RenameKey
    | MakeArchive(name: Name)
    | TearArchiveCert(name: Name)
    | CopyToArchiveCert(name: Name)
    | TearArchiveKey(name: Name)
    | CopyToArchiveKey(name: Name)
    | DropArchive(name: Name)
    | TearCert
    | RestoreCert(name: Name)
    | TearKey
    | RestoreKey(name: Name)

  function Perform(d: Disk, op: Op): Disk {
    match op
    case DropCert => d.(cert := Absent)
    case DropCertTmp => d.(certTmp := Absent)
    case DropKeyTmp => d.(keyTmp := Absent)
    case DropMarker => d.(marker := Absent)
    case TearCertTmp => d.(certTmp := Torn)
    case FillCertTmp(cert) => d.(certTmp := Whole(cert))
    case TearKeyTmp => d.(keyTmp := Torn)
    case FillKeyTmp(key) => d.(keyTmp := Whole(key))
    case TearMarker => d.(marker := Torn)
    case FillMarker(fingerprint) => d.(marker := Whole(fingerprint))
    case RenameCert => if d.certTmp.Absent? then d else d.(cert := d.certTmp, certTmp := Absent)
    case RenameKey => if d.keyTmp.Absent? then d else d.(key := d.keyTmp, keyTmp := Absent)
    case MakeArchive(name) =>
      if name in d.archives then d else d.(archives := d.archives[name := Archive(Absent, Absent)])
    case TearArchiveCert(name) => InArchive(d, name, (a: Archive) => a.(cert := Torn))
    case CopyToArchiveCert(name) => InArchive(d, name, (a: Archive) => a.(cert := d.cert))
    case TearArchiveKey(name) => InArchive(d, name, (a: Archive) => a.(key := Torn))
    case CopyToArchiveKey(name) => InArchive(d, name, (a: Archive) => a.(key := d.key))
    case DropArchive(name) => d.(archives := d.archives - {name})
    case TearCert => d.(cert := Torn)
    case RestoreCert(name) => if name in d.archives then d.(cert := d.archives[name].cert) else d
    case TearKey => d.(key := Torn)
    case RestoreKey(name) => if name in d.archives then d.(key := d.archives[name].key) else d
  }

  function InArchive(d: Disk, name: Name, change: Archive -> Archive): Disk {
    if name in d.archives then d.(archives := d.archives[name := change(d.archives[name])]) else d
  }

  function RunOps(d: Disk, ops: seq<Op>): Disk {
    if ops == [] then d else Perform(RunOps(d, ops[..|ops| - 1]), ops[|ops| - 1])
  }

  lemma {:induction false} RunOpsConcat(d: Disk, first: seq<Op>, second: seq<Op>)
    ensures RunOps(d, first + second) == RunOps(RunOps(d, first), second)
    decreases |second|
  {
    if second == [] {
      assert first + second == first;
    } else {
      var last := |second| - 1;
      assert (first + second)[..|first| + last] == first + second[..last];
      RunOpsConcat(d, first, second[..last]);
    }
  }

  // ---------- What the files mean ----------

  /** The pair a server can use as it stands: what `server_config` accepts. */
  predicate Live(d: Disk) {
    d.cert.Whole? && d.key.Whole? && Matches(d.cert.content, d.key.content)
  }

  function LivePair(d: Disk): Pair
    requires Live(d)
  {
    Pair(d.cert.content, d.key.content)
  }

  /** The staged key completes the committed certificate. */
  predicate Completable(d: Disk) {
    d.cert.Whole? && d.keyTmp.Whole? && Matches(d.cert.content, d.keyTmp.content)
  }

  predicate NoPair(d: Disk) {
    d.cert.Absent? && d.key.Absent?
  }
}
