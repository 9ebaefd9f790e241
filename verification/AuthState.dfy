/**
 `AuthState` itself: the methods of crates/fah-api/src/password.rs, each proved to do what it
 says and to be a path of the protocol, step by step, when no other call is in flight.
 */
module AuthState {
  import opened Wrappers
  import opened AuthProtocol

  /**
   What `stage_write` can come to: success, a failure before its rename, or one after it. Which of
   them a write meets is up to the file system, so each method is given it.
   */
  datatype Written = Done | Unwritten | WrittenLate

  /** The last of `states` makes one more step. */
  lemma Extend(states: seq<State>, steps: seq<Step>, step: Step)
    requires Path(states, steps) && Enabled(states[|steps|], step)
    ensures Path(states + [Apply(states[|steps|], step)], steps + [step])
  {
    hide Enabled, Apply;
    var all, allSteps := states + [Apply(states[|steps|], step)], steps + [step];
    forall i | 0 <= i < |allSteps|
      ensures Enabled(all[i], allSteps[i]) && all[i + 1] == Apply(all[i], allSteps[i])
    {
      assert all[i] == states[i];
      assert i < |steps| ==> allSteps[i] == steps[i];
    }
  }

  lemma Together(a: seq<Step>, b: seq<Step>, c: seq<Step>)
    ensures a + b + c == a + (b + c)
  {
  }

  /** The steps of a write of the secret that does not go through. */
  function UndoneSecret(written: Written): seq<Step> {
    if written.WrittenLate? then [WriteSecret, LateFailure] else [WriteEnd]
  }

  /** The steps of a write of the hash that does not go through. */
  function UndoneHash(written: Written): seq<Step> {
    if written.WrittenLate? then [WriteHash, LateFailure] else [WriteEnd]
  }

  class Auth {
    var disk: Disk
    var hash: Hash
    var secret: Secret
    var tokens: set<Token>
    var nextSecret: Secret
    /** The path of the protocol so far, and its states. */
    ghost var states: seq<State>
    ghost var steps: seq<Step>

    /** The process as the protocol sees it, with `writer` holding the write guard. */
    function Now(writer: Option<Writer>): State
      reads this
    {
      State(disk, Up(hash, secret, map[], writer), tokens, nextSecret)
    }

    ghost predicate On(s: State)
      reads this
    {
      Path(states, steps) && states[|steps|] == s
    }

    ghost predicate Idle()
      reads this
    {
      On(Now(None))
    }

    /** Records a step that the fields are about to make, or have made. */
    ghost method Record(s: State, step: Step)
      requires On(s) && Enabled(s, step)
      modifies this`states, this`steps
      ensures On(Apply(s, step)) && steps == old(steps) + [step] && old(states) <= states
    {
      Extend(states, steps, step);
      states, steps := states + [Apply(s, step)], steps + [step];
    }

    /** What `build` returns when its writes go through; see `Build`. */
    constructor (found: Disk, generated: Hash, nextSecret: Secret, issued: set<Token>)
      ensures Idle() && states[0] == State(found, Down, issued, nextSecret)
      ensures steps == [BootRead, BootSecret, BootHash(generated)]
      ensures disk == Disk(Some(hash), Some(secret)) && tokens == issued
      ensures hash == (if found.hash.Some? then found.hash.value else generated)
      ensures secret == (if found.hash.Some? && found.secret.Some? then found.secret.value else nextSecret)
    {
      var files := found;
      var kept := found.secret.Some? && found.hash.Some?;
      secret := if kept then found.secret.value else nextSecret;
      this.nextSecret := if kept then nextSecret else nextSecret + 1;
      if !kept {
        files := files.(secret := Some(nextSecret));
      }
      hash := if found.hash.Some? then found.hash.value else generated;
      if found.hash.None? {
        files := files.(hash := Some(generated));
      }
      disk := files;
      tokens := issued;
      new;
      ghost var s := State(found, Down, issued, nextSecret);
      states, steps := [s], [];
      Record(s, BootRead);
      Record(Apply(s, BootRead), BootSecret);
      Record(Apply(Apply(s, BootRead), BootSecret), BootHash(generated));
    }

    /** `write_fresh_secret` under the write guard, and the secret swapped once it is on disk. */
    method FreshSecret(ghost change: Option<Hash>, written: Written) returns (ok: bool)
      requires On(Now(Some(Begun(change))))
      modifies this
      ensures ok <==> written.Done?
      ensures old(states) <= states && old(steps) <= steps
      ensures ok ==> On(Now(Some(SecretSet(change)))) && steps == old(steps) + [WriteSecret, SetSecret]
      ensures !ok ==> Idle() && steps == old(steps) + UndoneSecret(written)
      ensures hash == old(hash) && tokens == old(tokens) && disk.hash == old(disk.hash)
      ensures ok ==> secret == old(nextSecret) && disk.secret == Some(secret)
      ensures !ok ==> secret == old(secret)
    {
      hide Path;
      if written.Unwritten? {
        Record(Now(Some(Begun(change))), WriteEnd);
        return false;
      }
      Record(Now(Some(Begun(change))), WriteSecret);
      var drawn := nextSecret;
      disk, nextSecret := disk.(secret := Some(drawn)), nextSecret + 1;
      if written.WrittenLate? {
        Record(Now(Some(SecretWritten(change, drawn))), LateFailure);
        return false;
      }
      Record(Now(Some(SecretWritten(change, drawn))), SetSecret);
      secret := drawn;
      return true;
    }

    method RotateSecret(written: Written) returns (ok: bool)
      requires Idle()
      modifies this
      ensures ok <==> written.Done?
      ensures Idle() && old(states) <= states && old(steps) <= steps
      ensures hash == old(hash) && tokens == old(tokens) && disk.hash == old(disk.hash)
      ensures ok ==> steps == old(steps) + LOGOUT && secret == old(nextSecret) && disk.secret == Some(secret)
      ensures !ok ==> secret == old(secret) && steps == old(steps) + ([WriteBegin(None)] + UndoneSecret(written))
    {
      hide Path;
      Record(Now(None), WriteBegin(None));
      ok := FreshSecret(None, written);
      if ok {
        Record(Now(Some(SecretSet(None))), WriteEnd);
        assert old(steps) + [WriteBegin(None)] + [WriteSecret, SetSecret] + [WriteEnd] == old(steps) + LOGOUT;
      } else {
        Together(old(steps), [WriteBegin(None)], UndoneSecret(written));
      }
    }

    /** The hash half of a password change: on disk first, then swapped. */
    method StoreHash(newHash: Hash, written: Written) returns (ok: bool)
      requires On(Now(Some(SecretSet(Some(newHash)))))
      modifies this
      ensures ok <==> written.Done?
      ensures Idle() && tokens == old(tokens) && secret == old(secret) && disk.secret == old(disk.secret)
      ensures old(states) <= states && old(steps) <= steps
      ensures ok ==> hash == newHash && disk.hash == Some(newHash) && steps == old(steps) + [WriteHash, SetHash]
      ensures !ok ==> hash == old(hash) && steps == old(steps) + UndoneHash(written)
      ensures !ok ==> disk.hash == if written.WrittenLate? then Some(newHash) else old(disk.hash)
    {
      hide Path;
      if written.Unwritten? {
        Record(Now(Some(SecretSet(Some(newHash)))), WriteEnd);
        return false;
      }
      Record(Now(Some(SecretSet(Some(newHash)))), WriteHash);
      disk := disk.(hash := Some(newHash));
      if written.WrittenLate? {
        Record(Now(Some(HashWritten(newHash))), LateFailure);
        return false;
      }
      Record(Now(Some(HashWritten(newHash))), SetHash);
      hash := newHash;
      return true;
    }

    /** `replace_password`, with what its write of the secret and its write of the hash come to. */
    method ReplacePassword(newHash: Hash, secretWrite: Written, hashWrite: Written) returns (ok: bool)
      requires Idle()
      modifies this
      ensures ok <==> secretWrite.Done? && hashWrite.Done?
      ensures Idle() && tokens == old(tokens) && old(states) <= states && old(steps) <= steps
      ensures ok ==> hash == newHash && disk == Disk(Some(newHash), Some(secret)) && secret == old(nextSecret)
      ensures ok ==> steps == old(steps) + [WriteBegin(Some(newHash)), WriteSecret, SetSecret, WriteHash, SetHash]
      ensures !ok ==> hash == old(hash)
      ensures !ok ==> secret == if secretWrite.Done? then old(nextSecret) else old(secret)
      ensures !ok ==> disk.hash == if secretWrite.Done? && hashWrite.WrittenLate? then Some(newHash) else old(disk.hash)
      ensures !ok ==> steps == old(steps) + [WriteBegin(Some(newHash))]
                               + if secretWrite.Done? then [WriteSecret, SetSecret] + UndoneHash(hashWrite)
                                 else UndoneSecret(secretWrite)
    {
      hide Path;
      Record(Now(None), WriteBegin(Some(newHash)));
      ghost var begin := steps;
      ok := FreshSecret(Some(newHash), secretWrite);
      if ok {
        ok := StoreHash(newHash, hashWrite);
        Together(begin, [WriteSecret, SetSecret], UndoneHash(hashWrite));
      }
    }

    /** `verify_and_mint`; `matched` is the verdict of the password check. */
    method VerifyAndMint(matched: bool) returns (token: Option<Token>)
      requires Idle()
      modifies this
      ensures Idle() && disk == old(disk) && hash == old(hash) && secret == old(secret)
      ensures old(states) <= states && old(steps) <= steps
      ensures matched <==> token.Some?
      ensures matched ==> token.value == Token(secret, hash, |old(tokens)|) && tokens == old(tokens) + {token.value}
      ensures !matched ==> tokens == old(tokens) && steps == old(steps) + [LoginBegin(0), LoginLoad(0), LoginEnd(0)]
      ensures matched ==> steps == old(steps) + LOGIN
    {
      hide Path;
      ghost var s := Now(None);
      Record(s, LoginBegin(0));
      s := Apply(s, LoginBegin(0));
      Record(s, LoginLoad(0));
      s := Apply(s, LoginLoad(0));
      if !matched {
        Record(s, LoginEnd(0));
        assert s.process.logins - {0} == map[];
        return None;
      }
      Record(s, LoginMint(0));
      assert s.process.logins - {0} == map[];
      token := Some(Token(secret, hash, |tokens|));
      tokens := tokens + {token.value};
      assert old(steps) + [LoginBegin(0)] + [LoginLoad(0)] + [LoginMint(0)] == old(steps) + LOGIN;
    }

    /**
     `verify_session`. Over the object's whole history, a token that is let in was minted after
     the last fresh secret came into force, and if no password change was lost half way, by a
     login that was checked against the password in force.
     */
    method VerifySession(token: Token) returns (ok: bool)
      requires Idle()
      ensures ok <==> Verifies(Now(None), token)
      ensures ok && Run(states, steps) ==>
                forall i | 0 <= i < |steps| && EndsSessions(states[i], steps[i]) :: token !in states[i].tokens
      ensures ok && Run(states, steps) && AllHarmless(states, steps) ==> token.checked == hash
    {
      ok := token in tokens && token.secret == secret;
      if ok && Run(states, steps) {
        forall i | 0 <= i < |steps| && EndsSessions(states[i], steps[i])
          ensures token !in states[i].tokens
        {
          if token in states[i].tokens {
            EndedSessionsStayEnded(states, steps, i, |steps|, token);
          }
        }
        if AllHarmless(states, steps) {
          SessionsMatchThePassword(states, steps, |steps|, token);
        }
      }
    }
  }

  /** A boot that gives up after `steps` of its own: the process is gone and the files stay as they are. */
  ghost predicate GivesUp(states: seq<State>, steps: seq<Step>, first: State, left: Disk) {
    && Path(states, steps) && states[0] == first && steps != [] && steps[|steps| - 1] == Crash
    && states[|steps|].process == Down && states[|steps|].disk == left && states[|steps|].tokens == first.tokens
  }

  lemma GivingUp(first: State, steps: seq<Step>) returns (states: seq<State>)
    requires first.process == Down
    requires steps == [BootRead] || steps == [BootRead, BootSecret]
             || (|steps| == 3 && steps[..2] == [BootRead, BootSecret] && steps[2].BootHash?)
    ensures |states| == |steps| + 2 && states[1] == Apply(first, BootRead)
    ensures |steps| >= 2 ==> states[2] == Apply(states[1], BootSecret)
    ensures |steps| == 3 ==> states[3] == Apply(states[2], steps[2])
    ensures GivesUp(states, steps + [Crash], first, states[|steps|].disk)
  {
    var one := Apply(first, BootRead);
    states := [first, one];
    if |steps| >= 2 {
      states := states + [Apply(one, BootSecret)];
    }
    if |steps| == 3 {
      states := states + [Apply(states[2], steps[2])];
    }
    states := states + [Apply(states[|steps|], Crash)];
  }

  /** The boot finds both files, or what it has to write goes through. */
  predicate Boots(found: Disk, secretWrite: Written, hashWrite: Written) {
    || (found.hash.Some? && found.secret.Some?)
    || (secretWrite.Done? && (found.hash.Some? || hashWrite.Done?))
  }

  /**
   `build`: reads both files, writes a fresh secret unless both are there, and only then writes a
   generated hash if there is none. A write that fails gives up; what it left on disk is `left`.
   */
  method Build(found: Disk, generated: Hash, nextSecret: Secret, issued: set<Token>,
               secretWrite: Written, hashWrite: Written)
    returns (auth: Auth?, left: Disk, ghost states: seq<State>, ghost steps: seq<Step>)
    ensures auth != null <==> Boots(found, secretWrite, hashWrite)
    ensures auth != null ==>
              && fresh(auth) && auth.Idle() && auth.states == states && auth.steps == steps && auth.disk == left
              && states[0] == State(found, Down, issued, nextSecret)
              && left == Disk(Some(auth.hash), Some(auth.secret))
              && auth.hash == (if found.hash.Some? then found.hash.value else generated)
              && auth.secret == (if found.hash.Some? && found.secret.Some? then found.secret.value else nextSecret)
    ensures auth == null ==>
              && GivesUp(states, steps, State(found, Down, issued, nextSecret), left)
              && left.secret == (if secretWrite.Unwritten? then found.secret else Some(nextSecret))
              && left.hash == (if secretWrite.Done? && hashWrite.WrittenLate? then Some(generated) else found.hash)
  {
    hide Path;
    ghost var first := State(found, Down, issued, nextSecret);
    auth, left, states, steps := null, found, [], [];
    if found.hash.None? || found.secret.None? {
      if secretWrite.Unwritten? {
        steps := [BootRead] + [Crash];
        states := GivingUp(first, [BootRead]);
        return;
      }
      left := left.(secret := Some(nextSecret));
      if secretWrite.WrittenLate? {
        steps := [BootRead, BootSecret] + [Crash];
        states := GivingUp(first, [BootRead, BootSecret]);
        return;
      }
    }
    if found.hash.None? {
      if hashWrite.Unwritten? {
        steps := [BootRead, BootSecret] + [Crash];
        states := GivingUp(first, [BootRead, BootSecret]);
        return;
      }
      left := left.(hash := Some(generated));
      if hashWrite.WrittenLate? {
        ghost var all := [BootRead, BootSecret, BootHash(generated)];
        steps := all + [Crash];
        states := GivingUp(first, all);
        return;
      }
    }
    auth := new Auth(found, generated, nextSecret, issued);
    states, steps := auth.states, auth.steps;
  }

  /**
   Any number of calls on the object of a fresh boot, in any order, each with whatever failures
   it meets: a token that is let in at the end was minted after the last fresh secret came into
   force, and, unless a password change lost the hash it had put on disk, by a login that was
   checked against the password in force.
   */
  method AnySession(found: Disk, generated: Hash, nextSecret: Secret, calls: nat, token: Token)
    returns (auth: Auth?, ok: bool)
    requires found.secret.Some? ==> found.secret.value < nextSecret
    ensures ok ==> auth != null && auth.Idle() && Run(auth.states, auth.steps) && Verifies(auth.Now(None), token)
    ensures ok ==> forall i | 0 <= i < |auth.steps| && EndsSessions(auth.states[i], auth.steps[i]) ::
                     token !in auth.states[i].tokens
    ensures ok && AllHarmless(auth.states, auth.steps) ==> token.checked == auth.hash
  {
    hide Enabled, Apply, EndsSessions, AllHarmless, Verifies;
    ok := false;
    ghost var states, steps;
    var left;
    var secretWrite: Written, hashWrite: Written := *, *;
    auth, left, states, steps := Build(found, generated, nextSecret, {}, secretWrite, hashWrite);
    if auth == null {
      return;
    }
    for i := 0 to calls
      invariant fresh(auth) && auth.Idle() && Init(auth.states[0])
    {
      var choice: int, newHash: Hash, matched: bool := *, *, *;
      secretWrite, hashWrite := *, *;
      if choice == 0 {
        var _ := auth.RotateSecret(secretWrite);
      } else if choice == 1 {
        var _ := auth.ReplacePassword(newHash, secretWrite, hashWrite);
      } else {
        var _ := auth.VerifyAndMint(matched);
      }
    }
    ok := auth.VerifySession(token);
  }
}
