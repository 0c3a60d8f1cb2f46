// Sessions and vault keys over every interleaving: each session's user has a key unless a
// sign-out falls into one particular gap, and the key opens the user's vault unless it is
// stored for a vault file that has been rewritten since.
module AccountKeys {
  import opened Common
  import opened Accounts
  import opened AccountSteps
  import opened Text

  // ----- sessions and keys -----------------------------------------------------------------

  ghost predicate FrameKeyed(o: Op, keys: map<string, Digest>) {
    && (o.Initialized? || o.Deriving? ==> o.uid in keys)
    && (o.Unlocked? && o.accepted ==> o.account.id in keys)
  }

  ghost predicate SessionsKeyed(s: Server) {
    forall sid :: sid in s.sessions ==> s.sessions[sid].userId in s.keys
  }

  ghost predicate Keyed(s: Server) {
    && SessionsKeyed(s)
    && forall op :: op in s.ops ==> FrameKeyed(s.ops[op], s.keys)
  }

  // A sign-out of the user's last session while a sign-in of the same user has stored
  // the key and not yet created its session.
  ghost predicate Robs(s: Server, step: Step) {
    && step.SignOut? && step.sid in s.sessions
    && var userId := s.sessions[step.sid].userId;
       && !SignedIn(s.sessions - {step.sid}, userId)
       && exists op :: op in s.ops && s.ops[op].Unlocked? && s.ops[op].accepted && s.ops[op].account.id == userId
  }

  lemma SignOutKeepsKeys(s: Server, sid: string)
    requires Ledger(s) && Keyed(s)
    ensures Keyed(SignedOut(s, sid)) <==> !Robs(s, SignOut(sid))
  {
    if sid in s.sessions {
      var userId := s.sessions[sid].userId;
      var left := s.sessions - {sid};
      var after := SignedOut(s, sid);
      if !SignedIn(left, userId) {
        forall op | op in s.ops && FrameKeyed(s.ops[op], after.keys) ensures
          !(s.ops[op].Unlocked? && s.ops[op].accepted && s.ops[op].account.id == userId) {
        }
        assert forall op :: op in s.ops && Registering(s.ops[op]) ==>
          FrameLogged(s.ops[op], s.log) && s.ops[op].uid != userId;
      }
    }
  }

  lemma RegisterEndKeepsKeys(s: Server, op: nat, sid: string, now: int)
    requires Ledger(s) && Keyed(s) && op in s.ops && s.ops[op].Deriving?
    ensures Keyed(RegisterEnded(s, op, sid, now))
  {
    assert forall a :: a in s.ops ==> FrameLogged(s.ops[a], s.log);
  }

  // A step that takes no key away, and adds no session or frame but ones with a key.
  ghost predicate KeysStay(s: Server, end: Server) {
    && (forall id :: id in s.keys ==> id in end.keys)
    && (forall sid :: sid in end.sessions ==>
          (sid in s.sessions && end.sessions[sid].userId == s.sessions[sid].userId) ||
            end.sessions[sid].userId in end.keys)
    && (forall op :: op in end.ops ==> (op in s.ops && end.ops[op] == s.ops[op]) || FrameKeyed(end.ops[op], end.keys))
  }

  lemma StayingKeepsKeyed(s: Server, end: Server)
    requires Keyed(s) && KeysStay(s, end)
    ensures Keyed(end)
  {
  }

  lemma RegisterBegunKeepsKeys(s: Server, step: Step)
    requires Possible(s, step) && step.BeginRegister?
    ensures KeysStay(s, Apply(s, step))
  {
  }

  lemma RegisterResumedKeepsKeys(s: Server, step: Step)
    requires Keyed(s) && Possible(s, step) && (step.StoreVault? || step.ResumeRegister?)
    ensures KeysStay(s, Apply(s, step))
  {
  }

  lemma CheckingKeepsKeys(s: Server, step: Step)
    requires Possible(s, step) && (step.BeginSignIn? || step.CheckSignIn?)
    ensures KeysStay(s, Apply(s, step))
  {
  }

  lemma UnlockKeepsKeys(s: Server, op: nat)
    requires Keyed(s) && op in s.ops && s.ops[op].Unlocking?
    ensures KeysStay(s, VaultUnlocked(s, op))
  {
  }

  lemma SignInEndKeepsKeys(s: Server, op: nat, sid: string, now: int)
    requires Keyed(s) && op in s.ops && s.ops[op].Unlocked? && sid !in s.sessions
    ensures KeysStay(s, SignInEnded(s, op, sid, now))
  {
  }

  lemma UnlockingKeepsKeys(s: Server, step: Step)
    requires Keyed(s) && Possible(s, step) && (step.Unlock? || step.EndSignIn?)
    ensures KeysStay(s, Apply(s, step))
  {
    if step.Unlock? {
      UnlockKeepsKeys(s, step.op);
    } else {
      SignInEndKeepsKeys(s, step.op, step.sid, step.now);
    }
  }

  lemma RewritingKeepsKeys(s: Server, step: Step)
    requires Possible(s, step) && (step.BeginRewrite? || step.EndRewrite?)
    ensures KeysStay(s, Apply(s, step))
  {
  }

  lemma OutsideKeepsKeys(s: Server, step: Step)
    requires Possible(s, step) && (step.Visit? || Changing(step))
    ensures KeysStay(s, Apply(s, step))
  {
    if Changing(step) {
      ChangeIsOutside(s, step);
    }
  }

  lemma StepKeepsKeys(s: Server, step: Step)
    requires Ledger(s) && Keyed(s) && Possible(s, step)
    ensures Keyed(Apply(s, step)) <==> !Robs(s, step)
  {
    if step.SignOut? {
      SignOutKeepsKeys(s, step.sid);
    } else if step.EndRegister? {
      RegisterEndKeepsKeys(s, step.op, step.sid, step.now);
    } else {
      if step.BeginRegister? {
        RegisterBegunKeepsKeys(s, step);
      } else if step.StoreVault? || step.ResumeRegister? {
        RegisterResumedKeepsKeys(s, step);
      } else if step.BeginSignIn? || step.CheckSignIn? {
        CheckingKeepsKeys(s, step);
      } else if step.Unlock? || step.EndSignIn? {
        UnlockingKeepsKeys(s, step);
      } else if step.BeginRewrite? || step.EndRewrite? {
        RewritingKeepsKeys(s, step);
      } else {
        OutsideKeepsKeys(s, step);
      }
      StayingKeepsKeyed(s, Apply(s, step));
    }
  }

  ghost predicate NeverRobbed(s: Server, steps: seq<Step>)
    requires Feasible(s, steps)
    decreases |steps|
  {
    steps == [] || (!Robs(s, steps[0]) && NeverRobbed(Apply(s, steps[0]), steps[1..]))
  }

  lemma {:induction false} RunKeepsKeys(s: Server, steps: seq<Step>)
    requires Ledger(s) && Keyed(s) && Feasible(s, steps) && NeverRobbed(s, steps)
    ensures Ledger(Final(s, steps)) && Keyed(Final(s, steps))
    decreases |steps|
  {
    if steps != [] {
      StepKeepsLedger(s, steps[0]);
      StepKeepsKeys(s, steps[0]);
      RunKeepsKeys(Apply(s, steps[0]), steps[1..]);
    }
  }

  // Every key held is the one that opens its user's vault, and whoever is about to derive
  // one derives it for a user with a vault.
  ghost predicate Genuine(s: Server) {
    && (forall id :: id in s.keys ==> id in s.vaults && s.keys[id] == s.vaults[id].check)
    && (forall op :: op in s.ops && s.ops[op].Unlocking? ==> s.ops[op].account.id in s.vaults)
    && (forall op :: op in s.changes && s.changes[op].Confirming? ==> s.changes[op].userId in s.vaults)
  }

  // The step stores a key that opens the vault file as it was read, and the file has been
  // rewritten under another key since.
  predicate Outdated(s: Server, step: Step) {
    || (step.Unlock? && step.op in s.ops && s.ops[step.op].Unlocking? &&
          var o := s.ops[step.op]; StoresOldKey(s, o.account.id, o.password, o.meta))
    || (step.ConfirmChange? && step.op in s.changes && s.changes[step.op].Confirming? &&
          var c := s.changes[step.op]; StoresOldKey(s, c.userId, c.current, c.meta))
  }

  predicate StoresOldKey(s: Server, userId: string, password: string, meta: VaultMeta) {
    Digest(password, meta.salt) == meta.check && (userId in s.vaults ==> s.vaults[userId].check != meta.check)
  }

  lemma UnlockKeepsGenuineIff(s: Server, op: nat)
    requires Genuine(s) && op in s.ops && s.ops[op].Unlocking?
    ensures Genuine(VaultUnlocked(s, op)) <==> !Outdated(s, Unlock(op))
  {
    var end, id := VaultUnlocked(s, op), s.ops[op].account.id;
    if Outdated(s, Unlock(op)) {
      assert id in end.keys;
    }
  }

  lemma ConfirmKeepsGenuineIff(s: Server, op: nat)
    requires Genuine(s) && op in s.changes && s.changes[op].Confirming?
    ensures Genuine(ChangeConfirmed(s, op)) <==> !Outdated(s, ConfirmChange(op))
  {
    var end, id := ChangeConfirmed(s, op), s.changes[op].userId;
    if Outdated(s, ConfirmChange(op)) {
      assert id in end.keys;
    }
  }

  // Keys and vaults are written together, and no frame is new but with a vault.
  ghost predicate GenuineStays(s: Server, end: Server) {
    && (forall id :: id in s.vaults ==> id in end.vaults)
    && (forall id :: id in end.keys ==>
          || (id in s.keys && end.keys[id] == s.keys[id] && id in s.vaults && end.vaults[id] == s.vaults[id])
          || (id in end.vaults && end.keys[id] == end.vaults[id].check))
    && (forall op :: op in end.ops && end.ops[op].Unlocking? ==>
          (op in s.ops && end.ops[op] == s.ops[op]) || end.ops[op].account.id in end.vaults)
    && (forall op :: op in end.changes && end.changes[op].Confirming? ==>
          (op in s.changes && end.changes[op] == s.changes[op]) || end.changes[op].userId in end.vaults)
  }

  lemma StayingKeepsGenuine(s: Server, end: Server)
    requires Genuine(s) && GenuineStays(s, end)
    ensures Genuine(end)
  {
  }

  lemma ChangesKeepGenuine(s: Server, step: Step)
    requires Genuine(s) && Possible(s, step) && (step.BeginChange? || step.ResumeChange? || step.EndChange?)
    ensures GenuineStays(s, Apply(s, step))
  {
    ChangeIsOutside(s, step);
  }

  lemma RegisterStartKeepsGenuine(s: Server, step: Step)
    requires Genuine(s) && Possible(s, step) && (step.BeginRegister? || step.StoreVault?)
    ensures GenuineStays(s, Apply(s, step))
  {
  }

  lemma RegisterFinishKeepsGenuine(s: Server, step: Step)
    requires Genuine(s) && Possible(s, step) && (step.ResumeRegister? || step.EndRegister?)
    ensures GenuineStays(s, Apply(s, step))
  {
  }

  lemma SignInStartKeepsGenuine(s: Server, step: Step)
    requires Genuine(s) && Possible(s, step) && (step.BeginSignIn? || step.CheckSignIn?)
    ensures GenuineStays(s, Apply(s, step))
  {
  }

  lemma SignInFinishKeepsGenuine(s: Server, step: Step)
    requires Genuine(s) && Possible(s, step) && step.EndSignIn?
    ensures GenuineStays(s, Apply(s, step))
  {
  }

  lemma LeavingKeepsGenuine(s: Server, step: Step)
    requires Genuine(s) && Possible(s, step) && (step.SignOut? || step.Visit?)
    ensures GenuineStays(s, Apply(s, step))
  {
  }

  lemma RewritingKeepsGenuine(s: Server, step: Step)
    requires Genuine(s) && Possible(s, step) && (step.BeginRewrite? || step.EndRewrite?)
    ensures GenuineStays(s, Apply(s, step))
  {
  }

  // A key that does not open its vault is stored exactly so.
  lemma StepKeepsGenuineIff(s: Server, step: Step)
    requires Genuine(s) && Possible(s, step)
    ensures Genuine(Apply(s, step)) <==> !Outdated(s, step)
  {
    if step.Unlock? {
      UnlockKeepsGenuineIff(s, step.op);
    } else if step.ConfirmChange? {
      ConfirmKeepsGenuineIff(s, step.op);
    } else {
      if Changing(step) {
        ChangesKeepGenuine(s, step);
      } else if step.BeginRegister? || step.StoreVault? {
        RegisterStartKeepsGenuine(s, step);
      } else if step.ResumeRegister? || step.EndRegister? {
        RegisterFinishKeepsGenuine(s, step);
      } else if step.BeginSignIn? || step.CheckSignIn? {
        SignInStartKeepsGenuine(s, step);
      } else if step.EndSignIn? {
        SignInFinishKeepsGenuine(s, step);
      } else if step.SignOut? || step.Visit? {
        LeavingKeepsGenuine(s, step);
      } else {
        RewritingKeepsGenuine(s, step);
      }
      StayingKeepsGenuine(s, Apply(s, step));
    }
  }

  ghost predicate NeverOutdated(s: Server, steps: seq<Step>)
    requires Feasible(s, steps)
    decreases |steps|
  {
    steps == [] || (!Outdated(s, steps[0]) && NeverOutdated(Apply(s, steps[0]), steps[1..]))
  }

  lemma {:induction false} RunKeepsGenuine(s: Server, steps: seq<Step>)
    requires Genuine(s) && Feasible(s, steps) && NeverOutdated(s, steps)
    ensures Genuine(Final(s, steps))
    decreases |steps|
  {
    if steps != [] {
      StepKeepsGenuineIff(s, steps[0]);
      RunKeepsGenuine(Apply(s, steps[0]), steps[1..]);
    }
  }

  // Every session's user has a key in the map, and while no key is stored for a vault file
  // rewritten since it was read, it is the key of their vault.
  lemma EverySessionHasItsKey(steps: seq<Step>)
    requires Feasible(EMPTY_SERVER, steps) && NeverRobbed(EMPTY_SERVER, steps)
    ensures var s := Final(EMPTY_SERVER, steps);
      && SessionsKeyed(s)
      && (NeverOutdated(EMPTY_SERVER, steps) ==>
            forall id :: id in s.keys ==> id in s.vaults && s.keys[id] == s.vaults[id].check)
  {
    RunKeepsKeys(EMPTY_SERVER, steps);
    if NeverOutdated(EMPTY_SERVER, steps) {
      RunKeepsGenuine(EMPTY_SERVER, steps);
    }
  }

  // A sign-in that was robbed still gets its session, and that session has no key.
  lemma RobbedSignInIsStranded(s: Server, op: nat, signOut: string, sid: string, now: int)
    requires op in s.ops && s.ops[op].Unlocked? && s.ops[op].accepted
    requires signOut in s.sessions && s.sessions[signOut].userId == s.ops[op].account.id
    requires !SignedIn(s.sessions - {signOut}, s.ops[op].account.id)
    ensures !SessionsKeyed(SignInEnded(SignedOut(s, signOut), op, sid, now))
  {
    var end := SignInEnded(SignedOut(s, signOut), op, sid, now);
    assert sid in end.sessions;
  }

}
