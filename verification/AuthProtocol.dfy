/**
 Sessions and the dashboard password: `AuthState` of crates/fah-api/src/password.rs, with the
 secret file of session.rs.

 The session secret sits behind a reader-writer lock. A login holds the read side from before
 it loads the password hash until its token is minted; a logout of all sessions and a change
 of password hold the write side, and write the secret before the hash. The process may crash
 between any two steps and boot again, and the operator may delete either file at any time.

 Secrets are numbered in the order they are drawn, so a fresh one is new. A token verifies
 against the secret that minted it and no other.
 */
module AuthProtocol {
  import opened Wrappers

  type Secret = nat
  type Hash = nat
  type Tid = nat

  /** A minted token: the secret that signed it, and the hash its login was checked against. */
  datatype Token = Token(secret: Secret, checked: Hash, serial: nat)

  /** A login that holds the read guard. */
  datatype Login = Locked | Checking(hash: Hash)

  /** The call that holds the write guard; `change` is the new hash when it changes the password. */
  datatype Writer =
    | Begun(change: Option<Hash>)
    | SecretWritten(change: Option<Hash>, secret: Secret)
    | SecretSet(change: Option<Hash>)
    | HashWritten(hash: Hash)

  datatype Disk = Disk(hash: Option<Hash>, secret: Option<Secret>)

  datatype Process =
    | Down
    | Read(storedHash: Option<Hash>, storedSecret: Option<Secret>)
    | Keyed(storedHash: Option<Hash>, secret: Secret)
    | Up(hash: Hash, secret: Secret, logins: map<Tid, Login>, writer: Option<Writer>)

  datatype State = State(disk: Disk, process: Process, tokens: set<Token>, nextSecret: Secret)

  datatype Step =
    | Crash
    | BootRead
    | BootSecret
    | BootHash(generated: Hash)
    | LoginBegin(t: Tid)
    | LoginLoad(t: Tid)
    | LoginMint(t: Tid)
    | LoginEnd(t: Tid)
    | WriteBegin(change: Option<Hash>)
    | WriteSecret
    | SetSecret
    | WriteHash
    | SetHash
    | WriteEnd
    | LateFailure
    | DeleteHash
    | DeleteSecret

  predicate Init(s: State) {
    && s.process == Down && s.tokens == {}
    && (s.disk.secret.Some? ==> s.disk.secret.value < s.nextSecret)
  }

  predicate Writing(s: State) {
    s.process.Up? && s.process.writer.Some?
  }

  predicate Enabled(s: State, step: Step) {
    var p := s.process;
    match step
    case Crash => true
    case BootRead => p.Down?
    case BootSecret => p.Read?
    case BootHash(_) => p.Keyed?
    case LoginBegin(t) => p.Up? && p.writer == None && t !in p.logins
    case LoginLoad(t) => p.Up? && t in p.logins && p.logins[t].Locked?
    case LoginMint(t) => p.Up? && t in p.logins && p.logins[t].Checking?
    case LoginEnd(t) => p.Up? && t in p.logins
    case WriteBegin(_) => p.Up? && p.writer == None && p.logins == map[]
    case WriteSecret => Writing(s) && p.writer.value.Begun?
    case SetSecret => Writing(s) && p.writer.value.SecretWritten?
    case WriteHash => Writing(s) && p.writer.value.SecretSet? && p.writer.value.change.Some?
    case SetHash => Writing(s) && p.writer.value.HashWritten?
    case WriteEnd => Writing(s) && (p.writer.value.Begun? || p.writer.value.SecretSet?)
    case LateFailure => Writing(s) && (p.writer.value.SecretWritten? || p.writer.value.HashWritten?)
    case DeleteHash => true
    case DeleteSecret => true
  }

  /**
   The next state. A failed boot is a crash; a write of the secret or of the hash that fails
   before its rename is `WriteEnd` from where the call stood, and one that fails on the
   permissions after its rename is `LateFailure`; a login whose password is wrong is `LoginEnd`.
   */
  function Apply(s: State, step: Step): State
    requires Enabled(s, step)
  {
    var p := s.process;
    match step
    case Crash => s.(process := Down)
    case BootRead => s.(process := Read(s.disk.hash, s.disk.secret))
    case BootSecret =>
      if p.storedSecret.Some? && p.storedHash.Some? then s.(process := Keyed(p.storedHash, p.storedSecret.value))
      else
        s.(disk := s.disk.(secret := Some(s.nextSecret)),
           process := Keyed(p.storedHash, s.nextSecret),
           nextSecret := s.nextSecret + 1)
    case BootHash(generated) =>
      match p.storedHash {
        case Some(hash) => s.(process := Up(hash, p.secret, map[], None))
        case None => s.(disk := s.disk.(hash := Some(generated)), process := Up(generated, p.secret, map[], None))
      }
    case LoginBegin(t) => s.(process := p.(logins := p.logins[t := Locked]))
    case LoginLoad(t) => s.(process := p.(logins := p.logins[t := Checking(p.hash)]))
    case LoginMint(t) =>
      s.(tokens := s.tokens + {Token(p.secret, p.logins[t].hash, |s.tokens|)}, process := p.(logins := p.logins - {t}))
    case LoginEnd(t) => s.(process := p.(logins := p.logins - {t}))
    case WriteBegin(change) => s.(process := p.(writer := Some(Begun(change))))
    case WriteSecret =>
      s.(disk := s.disk.(secret := Some(s.nextSecret)),
         process := p.(writer := Some(SecretWritten(p.writer.value.change, s.nextSecret))),
         nextSecret := s.nextSecret + 1)
    case SetSecret =>
      s.(process := p.(secret := p.writer.value.secret, writer := Some(SecretSet(p.writer.value.change))))
    case WriteHash =>
      s.(disk := s.disk.(hash := p.writer.value.change),
         process := p.(writer := Some(HashWritten(p.writer.value.change.value))))
    case SetHash => s.(process := p.(hash := p.writer.value.hash, writer := None))
    case WriteEnd => s.(process := p.(writer := None))
    case LateFailure => s.(process := p.(writer := None))
    case DeleteHash => s.(disk := s.disk.(hash := None))
    case DeleteSecret => s.(disk := s.disk.(secret := None))
  }

  // ---------- The invariant ----------

  /** `secret` was drawn after every token was minted. */
  ghost predicate Newer(s: State, secret: Secret) {
    forall token | token in s.tokens :: token.secret < secret
  }

  /** A reboot that keeps a secret keeps this one. */
  predicate OnlyOnDisk(s: State, secret: Secret) {
    s.disk.secret.Some? ==> s.disk.secret == Some(secret)
  }

  predicate Numbered(s: State) {
    && (forall token | token in s.tokens :: token.secret < s.nextSecret)
    && (s.disk.secret.Some? ==> s.disk.secret.value < s.nextSecret)
    && (s.process.Read? && s.process.storedSecret.Some? ==> s.process.storedSecret.value < s.nextSecret)
    && (s.process.Keyed? || s.process.Up? ==> s.process.secret < s.nextSecret)
  }

  /** The write side excludes every login, and a secret it draws is new to everyone. */
  ghost predicate SecretSound(s: State) {
    && Numbered(s)
    && (s.process.Keyed? && s.process.storedHash.None? ==>
          Newer(s, s.process.secret) && OnlyOnDisk(s, s.process.secret))
    && (Writing(s) ==>
          && s.process.logins == map[]
          && match s.process.writer.value
             case Begun(_) => true
             case SecretWritten(_, secret) =>
               Newer(s, secret) && OnlyOnDisk(s, secret) && s.process.secret < secret < s.nextSecret
             case SecretSet(_) => Newer(s, s.process.secret) && OnlyOnDisk(s, s.process.secret)
             case HashWritten(_) => Newer(s, s.process.secret))
  }

  /** Every token under `secret` was checked against `hash`. */
  ghost predicate CheckedAgainst(s: State, secret: Secret, hash: Hash) {
    forall token | token in s.tokens && token.secret == secret :: token.checked == hash
  }

  /** What a reboot could put in force: the secret on disk, with the hash on disk. */
  ghost predicate DiskSound(s: State) {
    s.disk.secret.Some? && s.disk.hash.Some? ==> CheckedAgainst(s, s.disk.secret.value, s.disk.hash.value)
  }

  /** The hash on disk is `hash`, unless it was deleted. */
  predicate Stored(s: State, hash: Hash) {
    s.disk.hash.Some? ==> s.disk.hash == Some(hash)
  }

  ghost predicate ProcessSound(s: State) {
    match s.process
    case Down => true
    case Read(hash, secret) =>
      && (secret.Some? && hash.Some? ==> CheckedAgainst(s, secret.value, hash.value))
      && (if hash.Some? then Stored(s, hash.value) else s.disk.hash.None?)
    case Keyed(hash, secret) =>
      if hash.Some? then CheckedAgainst(s, secret, hash.value) && Stored(s, hash.value) else s.disk.hash.None?
    case Up(hash, secret, logins, writer) =>
      && CheckedAgainst(s, secret, hash)
      && Stored(s, if writer.Some? && writer.value.HashWritten? then writer.value.hash else hash)
      && (forall t | t in logins && logins[t].Checking? :: logins[t].hash == hash)
  }

  ghost predicate HashSound(s: State) {
    DiskSound(s) && ProcessSound(s)
  }

  /** All steps but one: a password change that forgets the hash it has just put on disk. */
  predicate Harmless(s: State, step: Step)
    requires Enabled(s, step)
  {
    step.LateFailure? && s.process.writer.value.HashWritten? ==> Stored(s, s.process.hash)
  }

  lemma InitHolds(s: State)
    requires Init(s)
    ensures SecretSound(s) && HashSound(s)
  {
  }

  lemma SecretKept(s: State, step: Step)
    requires SecretSound(s) && Enabled(s, step)
    ensures SecretSound(Apply(s, step))
  {
  }

  lemma DiskKept(s: State, step: Step)
    requires SecretSound(s) && HashSound(s) && Enabled(s, step) && Harmless(s, step)
    ensures DiskSound(Apply(s, step))
  {
  }

  lemma ProcessKept(s: State, step: Step)
    requires SecretSound(s) && HashSound(s) && Enabled(s, step) && Harmless(s, step)
    ensures ProcessSound(Apply(s, step))
  {
  }

  // ---------- Runs ----------

  ghost predicate Path(states: seq<State>, steps: seq<Step>) {
    && |states| == |steps| + 1
    && forall i | 0 <= i < |steps| :: Enabled(states[i], steps[i]) && states[i + 1] == Apply(states[i], steps[i])
  }

  ghost predicate Run(states: seq<State>, steps: seq<Step>) {
    Path(states, steps) && Init(states[0])
  }

  ghost predicate AllHarmless(states: seq<State>, steps: seq<Step>)
    requires Path(states, steps)
  {
    forall i | 0 <= i < |steps| :: Harmless(states[i], steps[i])
  }

  /** A request that presents `token` is let in: it takes the read side, and the token checks out. */
  predicate Verifies(s: State, token: Token) {
    s.process.Up? && s.process.writer.None? && token in s.tokens && token.secret == s.process.secret
  }

  /** Someone is let in by a token whose login was checked against another password. */
  ghost predicate Mismatched(s: State) {
    exists token :: Verifies(s, token) && token.checked != s.process.hash
  }

  lemma {:induction false} PathIsSecretSound(states: seq<State>, steps: seq<Step>, n: nat)
    requires Path(states, steps) && n <= |steps| && SecretSound(states[0])
    ensures SecretSound(states[n])
  {
    hide SecretSound;
    if n > 0 {
      PathIsSecretSound(states, steps, n - 1);
      SecretKept(states[n - 1], steps[n - 1]);
    }
  }

  lemma {:induction false} PathIsHashSound(states: seq<State>, steps: seq<Step>, n: nat)
    requires Path(states, steps) && n <= |steps| && AllHarmless(states, steps)
    requires SecretSound(states[0]) && HashSound(states[0])
    ensures HashSound(states[n])
  {
    hide SecretSound, DiskSound, ProcessSound, Harmless;
    if n > 0 {
      PathIsHashSound(states, steps, n - 1);
      PathIsSecretSound(states, steps, n - 1);
      DiskKept(states[n - 1], steps[n - 1]);
      ProcessKept(states[n - 1], steps[n - 1]);
    }
  }

  /**
   Over every interleaving of logins, logouts, password changes, crashes, boots and deletions: a
   token that is let in was minted by a login that was checked against the password in force.
   */
  lemma SessionsMatchThePassword(states: seq<State>, steps: seq<Step>, n: nat, token: Token)
    requires Run(states, steps) && n <= |steps| && AllHarmless(states, steps)
    requires Verifies(states[n], token)
    ensures token.checked == states[n].process.hash
  {
    InitHolds(states[0]);
    PathIsHashSound(states, steps, n);
  }

  // ---------- The late failure ----------

  // A logout of all sessions, a login and a restart, each without interruption.

  const LOGOUT := [WriteBegin(None), WriteSecret, SetSecret, WriteEnd]

  const LOGIN := [LoginBegin(0), LoginLoad(0), LoginMint(0)]

  const RESTART := [Crash, BootRead, BootSecret, BootHash(0)]

  /**
   A password change whose hash file is renamed into place but whose permissions cannot be set
   returns an error and leaves the old hash in memory. The session guarantee then outlives
   every further run exactly when the file no longer holds a hash that differs from the old one.
   */
  lemma LateFailureIsHarmlessIff(s: State)
    requires SecretSound(s) && HashSound(s)
    requires Enabled(s, LateFailure)
    ensures Harmless(s, LateFailure) <==>
            forall states, steps |
              Path(states, steps) && AllHarmless(states, steps) && states[0] == Apply(s, LateFailure) ::
              !Mismatched(states[|steps|])
  {
    var after := Apply(s, LateFailure);
    if Harmless(s, LateFailure) {
      SecretKept(s, LateFailure);
      DiskKept(s, LateFailure);
      ProcessKept(s, LateFailure);
      forall states, steps | Path(states, steps) && AllHarmless(states, steps) && states[0] == after
        ensures !Mismatched(states[|steps|])
      {
        PathIsHashSound(states, steps, |steps|);
      }
    } else {
      var states, steps := RestartMismatches(after);
      assert Mismatched(states[|steps|]);
    }
  }

  lemma PathConcat(states: seq<State>, steps: seq<Step>, states': seq<State>, steps': seq<Step>)
    requires Path(states, steps) && Path(states', steps') && states[|steps|] == states'[0]
    ensures var all := states + states'[1..];
            && Path(all, steps + steps') && all[0] == states[0] && all[|steps + steps'|] == states'[|steps'|]
            && (AllHarmless(states, steps) && AllHarmless(states', steps') ==> AllHarmless(all, steps + steps'))
  {
    hide Enabled, Apply, Harmless;
    var all, allSteps := states + states'[1..], steps + steps';
    forall i | 0 <= i < |allSteps|
      ensures Enabled(all[i], allSteps[i]) && all[i + 1] == Apply(all[i], allSteps[i])
      ensures AllHarmless(states, steps) && AllHarmless(states', steps') ==> Harmless(all[i], allSteps[i])
    {
      if i >= |steps| {
        assert all[i] == states'[i - |steps|] && allSteps[i] == steps'[i - |steps|];
      }
    }
  }

  lemma LogoutPath(s: State) returns (states: seq<State>)
    requires s.process.Up? && s.process.writer.None? && s.process.logins == map[]
    ensures Path(states, LOGOUT) && AllHarmless(states, LOGOUT) && states[0] == s && states[4] == LoggedOut(s)
  {
    var s1 := Apply(s, WriteBegin(None));
    var s2 := Apply(s1, WriteSecret);
    var s3 := Apply(s2, SetSecret);
    var s4 := Apply(s3, WriteEnd);
    assert s4 == LoggedOut(s);
    hide Apply, Enabled;
    states := [s, s1, s2, s3, s4];
  }

  lemma LoginPath(s: State) returns (states: seq<State>)
    requires s.process.Up? && s.process.writer.None? && s.process.logins == map[]
    ensures Path(states, LOGIN) && AllHarmless(states, LOGIN) && states[0] == s
    ensures states[3].disk == s.disk && Token(s.process.secret, s.process.hash, |s.tokens|) in states[3].tokens
  {
    var s1 := Apply(s, LoginBegin(0));
    var s2 := Apply(s1, LoginLoad(0));
    var s3 := Apply(s2, LoginMint(0));
    assert s3.disk == s.disk && Token(s.process.secret, s.process.hash, |s.tokens|) in s3.tokens;
    hide Apply, Enabled;
    states := [s, s1, s2, s3];
  }

  lemma RestartKeepsTokens(s: State, token: Token) returns (states: seq<State>)
    requires s.disk.hash.Some? && s.disk.secret == Some(token.secret) && token in s.tokens
    ensures Path(states, RESTART) && AllHarmless(states, RESTART) && states[0] == s
    ensures Verifies(states[4], token) && states[4].process.hash == s.disk.hash.value
  {
    var s1 := Apply(s, Crash);
    var s2 := Apply(s1, BootRead);
    var s3 := Apply(s2, BootSecret);
    var s4 := Apply(s3, BootHash(0));
    assert Verifies(s4, token) && s4.process.hash == s.disk.hash.value;
    hide Apply, Enabled, Verifies;
    states := [s, s1, s2, s3, s4];
  }

  lemma RestartMismatches(s: State) returns (states: seq<State>, steps: seq<Step>)
    requires s.process.Up? && s.process.writer.None? && s.process.logins == map[]
    requires s.disk.hash.Some? && s.disk.hash.value != s.process.hash
    ensures Path(states, steps) && AllHarmless(states, steps) && states[0] == s
    ensures Mismatched(states[|steps|])
  {
    hide Enabled, Apply, Harmless, Verifies;
    var out := LogoutPath(s);
    var login := LoginPath(out[4]);
    var token := Token(s.nextSecret, s.process.hash, |s.tokens|);
    var boot := RestartKeepsTokens(login[3], token);
    PathConcat(out, LOGOUT, login, LOGIN);
    PathConcat(out + login[1..], LOGOUT + LOGIN, boot, RESTART);
    states, steps := out + login[1..] + boot[1..], LOGOUT + LOGIN + RESTART;
  }

  /** The first boot, on an empty disk. */
  const FIRST_BOOT := [BootRead, BootSecret, BootHash(1)]

  /** A password change that goes wrong once the new hash is in place. */
  const LOST_CHANGE := [WriteBegin(Some(2)), WriteSecret, SetSecret, WriteHash, LateFailure]

  lemma FirstBootPath() returns (states: seq<State>)
    ensures Run(states, FIRST_BOOT) && states[0] == State(Disk(None, None), Down, {}, 0)
    ensures states[3] == State(Disk(Some(1), Some(0)), Up(1, 0, map[], None), {}, 1)
  {
    var s := State(Disk(None, None), Down, {}, 0);
    var s1 := Apply(s, BootRead);
    var s2 := Apply(s1, BootSecret);
    var s3 := Apply(s2, BootHash(1));
    assert s3 == State(Disk(Some(1), Some(0)), Up(1, 0, map[], None), {}, 1);
    hide Apply, Enabled;
    states := [s, s1, s2, s3];
  }

  lemma LostChangePath() returns (states: seq<State>)
    ensures Path(states, LOST_CHANGE) && states[0] == State(Disk(Some(1), Some(0)), Up(1, 0, map[], None), {}, 1)
    ensures states[5] == State(Disk(Some(2), Some(1)), Up(1, 1, map[], None), {}, 2)
  {
    var s := State(Disk(Some(1), Some(0)), Up(1, 0, map[], None), {}, 1);
    var s1 := Apply(s, WriteBegin(Some(2)));
    var s2 := Apply(s1, WriteSecret);
    var s3 := Apply(s2, SetSecret);
    var s4 := Apply(s3, WriteHash);
    var s5 := Apply(s4, LateFailure);
    assert s5 == State(Disk(Some(2), Some(1)), Up(1, 1, map[], None), {}, 2);
    hide Apply, Enabled;
    states := [s, s1, s2, s3, s4, s5];
  }

  /** From an empty disk to a session whose login was checked against a password that is not in force. */
  lemma LateFailureCanMismatch() returns (states: seq<State>, steps: seq<Step>)
    ensures Run(states, steps) && FIRST_BOOT + LOST_CHANGE <= steps && Mismatched(states[|steps|])
  {
    hide Enabled, Apply, Harmless, Verifies;
    var boot := FirstBootPath();
    var change := LostChangePath();
    var rest, restSteps := RestartMismatches(change[5]);
    PathConcat(boot, FIRST_BOOT, change, LOST_CHANGE);
    PathConcat(boot + change[1..], FIRST_BOOT + LOST_CHANGE, rest, restSteps);
    states, steps := boot + change[1..] + rest[1..], FIRST_BOOT + LOST_CHANGE + restSteps;
  }

  /** `s` after a logout of all sessions that goes through. */
  function LoggedOut(s: State): State
    requires s.process.Up?
  {
    s.(disk := s.disk.(secret := Some(s.nextSecret)),
       process := s.process.(secret := s.nextSecret, writer := None),
       nextSecret := s.nextSecret + 1)
  }

  // ---------- Ended sessions ----------

  /** Every secret in use, or that a reboot could bring back, is `floor` or was drawn later. */
  predicate AtLeast(s: State, floor: Secret) {
    && floor <= s.nextSecret
    && (s.disk.secret.Some? ==> floor <= s.disk.secret.value)
    && (s.process.Read? && s.process.storedSecret.Some? ==> floor <= s.process.storedSecret.value)
    && (s.process.Keyed? || s.process.Up? ==> floor <= s.process.secret)
    && (Writing(s) && s.process.writer.value.SecretWritten? ==> floor <= s.process.writer.value.secret)
  }

  lemma FloorKept(s: State, step: Step, floor: Secret)
    requires AtLeast(s, floor) && Enabled(s, step)
    ensures AtLeast(Apply(s, step), floor)
  {
  }

  lemma {:induction false} FloorHolds(states: seq<State>, steps: seq<Step>, from: nat, to: nat, floor: Secret)
    requires Path(states, steps) && from <= to <= |steps| && AtLeast(states[from], floor)
    ensures AtLeast(states[to], floor)
  {
    hide AtLeast;
    if from < to {
      FloorHolds(states, steps, from, to - 1, floor);
      FloorKept(states[to - 1], steps[to - 1], floor);
    }
  }

  /** The step puts a fresh secret in force: a logout, a password change, a boot without a hash or a secret. */
  predicate EndsSessions(s: State, step: Step)
    requires Enabled(s, step)
  {
    || step.SetSecret?
    || (step.BootSecret? && (s.process.storedSecret.None? || s.process.storedHash.None?))
  }

  /**
   Once a fresh secret is in force, no token minted before is ever let in again: not in this
   process, not after any crash and boot, and not even when a later write fails half way.
   */
  lemma EndedSessionsStayEnded(states: seq<State>, steps: seq<Step>, from: nat, to: nat, token: Token)
    requires Run(states, steps) && from < to <= |steps|
    requires EndsSessions(states[from], steps[from]) && token in states[from].tokens
    ensures !Verifies(states[to], token)
  {
    InitHolds(states[0]);
    PathIsSecretSound(states, steps, from);
    assert states[from + 1] == Apply(states[from], steps[from]);
    var floor := states[from + 1].process.secret;
    FloorHolds(states, steps, from + 1, to, floor);
  }

  // ---------- Sessions that last ----------

  predicate Spares(step: Step) {
    !step.WriteSecret? && !step.DeleteHash? && !step.DeleteSecret?
  }

  /** The secret is the same in memory, on disk and wherever a boot is holding it. */
  predicate Settled(s: State, secret: Secret) {
    && s.disk.hash.Some? && s.disk.secret == Some(secret)
    && match s.process
       case Down => true
       case Read(hash, stored) => hash.Some? && stored == Some(secret)
       case Keyed(_, inForce) => inForce == secret
       case Up(_, inForce, _, writer) => inForce == secret && (writer.Some? ==> writer.value.Begun?)
  }

  /**
   A session survives any number of crashes and reboots: while nobody draws a fresh secret or
   deletes a file, its token is let in whenever the process is up and its lock is free.
   */
  lemma {:induction false} SessionsSurviveReboots(
      states: seq<State>, steps: seq<Step>, from: nat, to: nat, token: Token)
    requires Path(states, steps) && from <= to <= |steps|
    requires forall i | from <= i < to :: Spares(steps[i])
    requires token in states[from].tokens && Settled(states[from], token.secret)
    ensures Settled(states[to], token.secret) && token in states[to].tokens
    ensures Verifies(states[to], token) <==> states[to].process.Up? && states[to].process.writer.None?
  {
    if from < to {
      SessionsSurviveReboots(states, steps, from, to - 1, token);
      assert states[to] == Apply(states[to - 1], steps[to - 1]);
    }
  }
}
