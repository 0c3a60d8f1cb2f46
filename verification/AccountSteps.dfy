// The transition system of the account operations: every interleaving at their awaits,
// and what each step leaves alone.
module AccountSteps {
  import opened Common
  import opened Accounts
  import opened Text

  datatype Step =
    | BeginRegister(op: nat, username: string, password: string, uid: string, salt: string)
    | StoreVault(op: nat)
    | ResumeRegister(op: nat, salt: string)
    | EndRegister(op: nat, sid: string, now: int)
    | BeginSignIn(op: nat, username: string, password: string)
    | CheckSignIn(op: nat)
    | Unlock(op: nat)
    | EndSignIn(op: nat, sid: string, now: int)
    | SignOut(sid: string)
    | Visit(sid: string, now: int)
    | BeginRewrite(op: nat, userId: string, password: string, salt: string)
    | EndRewrite(op: nat)
    | BeginChange(op: nat, userId: string, current: string, next: string)
    | ConfirmChange(op: nat)
    | ResumeChange(op: nat)
    | EndChange(op: nat)

  predicate Registering(o: Op) {
    o.Initializing? || o.Initialized? || o.Deriving?
  }

  // Account ids and session ids are random: no two draws agree.
  ghost predicate Unused(s: Server, uid: string) {
    && uid !in s.log && uid !in s.keys && uid !in s.vaults
    && forall op :: op in s.ops && Registering(s.ops[op]) ==> s.ops[op].uid != uid
  }

  ghost predicate Possible(s: Server, step: Step) {
    match step
    case BeginRegister(op, _, _, uid, _) => op !in s.ops && Unused(s, uid)
    case StoreVault(op) => op in s.ops && s.ops[op].Initializing?
    case ResumeRegister(op, _) => op in s.ops && s.ops[op].Initialized?
    case EndRegister(op, sid, _) => op in s.ops && s.ops[op].Deriving? && sid !in s.sessions
    case BeginSignIn(op, _, _) => op !in s.ops
    case CheckSignIn(op) => op in s.ops && s.ops[op].Checking?
    case Unlock(op) => op in s.ops && s.ops[op].Unlocking?
    case EndSignIn(op, sid, _) => op in s.ops && s.ops[op].Unlocked? && sid !in s.sessions
    case SignOut(_) => true
    case Visit(_, _) => true
    case BeginRewrite(op, _, _, _) => op !in s.ops
    case EndRewrite(op) => op in s.ops && s.ops[op].Rewriting?
    case BeginChange(op, _, _, _) => op !in s.changes
    case ConfirmChange(op) => op in s.changes && s.changes[op].Confirming?
    case ResumeChange(op) => op in s.changes && s.changes[op].Confirmed?
    case EndChange(op) => op in s.changes && s.changes[op].Rewrapping?
  }

  ghost function Apply(s: Server, step: Step): Server
    requires Possible(s, step)
  {
    match step
    case BeginRegister(op, username, password, uid, salt) => RegisterBegun(s, op, username, password, uid, salt)
    case StoreVault(op) => VaultStored(s, op)
    case ResumeRegister(op, salt) => RegisterResumed(s, op, salt)
    case EndRegister(op, sid, now) => RegisterEnded(s, op, sid, now)
    case BeginSignIn(op, username, password) => SignInBegun(s, op, username, password)
    case CheckSignIn(op) => SignInChecked(s, op)
    case Unlock(op) => VaultUnlocked(s, op)
    case EndSignIn(op, sid, now) => SignInEnded(s, op, sid, now)
    case SignOut(sid) => SignedOut(s, sid)
    case Visit(sid, now) => SessionSeen(s, sid, now)
    case BeginRewrite(op, userId, password, salt) => RewriteBegun(s, op, userId, password, salt)
    case EndRewrite(op) => RewriteEnded(s, op)
    case BeginChange(op, userId, current, next) => ChangeBegun(s, op, userId, current, next)
    case ConfirmChange(op) => ChangeConfirmed(s, op)
    case ResumeChange(op) => ChangeResumed(s, op)
    case EndChange(op) => ChangeEnded(s, op)
  }

  ghost predicate Feasible(s: Server, steps: seq<Step>)
    decreases |steps|
  {
    steps == [] || (Possible(s, steps[0]) && Feasible(Apply(s, steps[0]), steps[1..]))
  }

  ghost function Final(s: Server, steps: seq<Step>): Server
    requires Feasible(s, steps)
    decreases |steps|
  {
    if steps == [] then s else Final(Apply(s, steps[0]), steps[1..])
  }

  // ----- who has been written ---------------------------------------------------------

  ghost predicate Listed(users: seq<User>, log: seq<string>) {
    forall i :: 0 <= i < |users| ==> users[i].id in log
  }

  ghost predicate FrameLogged(o: Op, log: seq<string>) {
    match o
    case Initializing(uid, _, _, _) => uid !in log
    case Initialized(uid, _, _) => uid !in log
    case Deriving(uid, _, _, _) => uid !in log
    case Checking(user, _) => user.Some? ==> user.value.id in log
    case Unlocking(account, _, _) => account.id in log
    case Unlocked(account, _) => account.id in log
    case Rewriting(users, _, _, _, mark, _) => mark <= |log| && Listed(users, log)
  }

  ghost predicate Ledger(s: Server) {
    && Distinct(s.log)
    && Listed(s.users, s.log)
    && (forall op :: op in s.ops ==> FrameLogged(s.ops[op], s.log))
    && (forall a, b :: a in s.ops && b in s.ops && a != b && Registering(s.ops[a]) && Registering(s.ops[b]) ==>
          s.ops[a].uid != s.ops[b].uid)
    && (forall sid :: sid in s.sessions ==> s.sessions[sid].userId in s.log)
  }

  predicate Changing(step: Step) {
    step.BeginChange? || step.ConfirmChange? || step.ResumeChange? || step.EndChange?
  }

  function OpOf(step: Step): nat {
    if step.SignOut? || step.Visit? || Changing(step) then 0 else step.op
  }

  ghost predicate SessionsListed(sessions: map<string, Session>, log: seq<string>) {
    forall sid :: sid in sessions ==> sessions[sid].userId in log
  }

  // A frame as it may be in `s`: new, it names nobody who is about to be written but for
  // itself, and holds the accounts file as it is.
  ghost predicate FrameOk(s: Server, op: nat, o: Op) {
    && FrameLogged(o, s.log)
    && (Registering(o) ==> forall a :: a in s.ops && a != op && Registering(s.ops[a]) ==> s.ops[a].uid != o.uid)
    && (o.Rewriting? ==>
          || (op in s.ops && s.ops[op] == o)
          || (o.users == s.users && o.mark == |s.log| && o.since == |s.rewrites| && HasId(s.users, o.userId)))
  }

  // Nothing written, and no frame touched but `op`.
  ghost predicate Quiet(s: Server, end: Server, op: nat) {
    && end.users == s.users && end.log == s.log && end.rewrites == s.rewrites
    && (forall a :: a in end.ops && a != op ==> a in s.ops && end.ops[a] == s.ops[a])
    && (op in end.ops ==> FrameOk(s, op, end.ops[op]))
    && SessionsListed(end.sessions, s.log)
  }

  lemma SameFrameOk(s: Server, op: nat)
    requires Ledger(s) && op in s.ops
    ensures FrameOk(s, op, s.ops[op])
  {
  }

  lemma RegisterBegunIsQuiet(s: Server, op: nat, username: string, password: string, uid: string, salt: string)
    requires Ledger(s) && op !in s.ops && Unused(s, uid)
    ensures Quiet(s, RegisterBegun(s, op, username, password, uid, salt), op)
  {
  }

  lemma VaultStoredIsQuiet(s: Server, op: nat)
    requires Ledger(s) && op in s.ops && s.ops[op].Initializing?
    ensures Quiet(s, VaultStored(s, op), op)
  {
    SameFrameOk(s, op);
  }

  lemma RegisterResumedIsQuiet(s: Server, op: nat, salt: string)
    requires Ledger(s) && op in s.ops && s.ops[op].Initialized?
    ensures Quiet(s, RegisterResumed(s, op, salt), op)
  {
    SameFrameOk(s, op);
  }

  lemma SignInBegunIsQuiet(s: Server, op: nat, username: string, password: string)
    requires Ledger(s) && op !in s.ops
    ensures Quiet(s, SignInBegun(s, op, username, password), op)
  {
    FoundIffTaken(s.users, Trim(username));
  }

  lemma SignInCheckedIsQuiet(s: Server, op: nat)
    requires Ledger(s) && op in s.ops && s.ops[op].Checking?
    ensures Quiet(s, SignInChecked(s, op), op)
  {
    SameFrameOk(s, op);
  }

  lemma VaultUnlockedIsQuiet(s: Server, op: nat)
    requires Ledger(s) && op in s.ops && s.ops[op].Unlocking?
    ensures Quiet(s, VaultUnlocked(s, op), op)
  {
    SameFrameOk(s, op);
  }

  lemma SignInEndedIsQuiet(s: Server, op: nat, sid: string, now: int)
    requires Ledger(s) && op in s.ops && s.ops[op].Unlocked?
    ensures Quiet(s, SignInEnded(s, op, sid, now), op)
  {
    SameFrameOk(s, op);
  }

  // Nothing of the accounts file, of the suspended account operations or of their history.
  predicate Outside(s: Server, end: Server) {
    end == s.(sessions := end.sessions, keys := end.keys, vaults := end.vaults, changes := end.changes)
  }

  lemma OutsideIsQuiet(s: Server, end: Server)
    requires Ledger(s) && Outside(s, end) && SessionsListed(end.sessions, s.log)
    ensures Quiet(s, end, 0)
  {
    if 0 in s.ops {
      SameFrameOk(s, 0);
    }
  }

  lemma SignedOutIsOutside(s: Server, sid: string)
    requires SessionsListed(s.sessions, s.log)
    ensures Outside(s, SignedOut(s, sid)) && SessionsListed(SignedOut(s, sid).sessions, s.log)
  {
  }

  lemma SessionSeenIsOutside(s: Server, sid: string, now: int)
    requires SessionsListed(s.sessions, s.log)
    ensures Outside(s, SessionSeen(s, sid, now)) && SessionsListed(SessionSeen(s, sid, now).sessions, s.log)
  {
  }

  lemma ChangeIsOutside(s: Server, step: Step)
    requires Possible(s, step) && Changing(step)
    ensures Outside(s, Apply(s, step)) && Apply(s, step).sessions == s.sessions
  {
  }

  lemma RewriteBegunIsQuiet(s: Server, op: nat, userId: string, password: string, salt: string)
    requires Ledger(s) && op !in s.ops
    ensures Quiet(s, RewriteBegun(s, op, userId, password, salt), op)
  {
  }

  lemma RegisterStepIsQuiet(s: Server, step: Step)
    requires Ledger(s) && Possible(s, step) && (step.BeginRegister? || step.StoreVault? || step.ResumeRegister?)
    ensures Quiet(s, Apply(s, step), OpOf(step))
  {
    match step
    case BeginRegister(op, username, password, uid, salt) => RegisterBegunIsQuiet(s, op, username, password, uid, salt);
    case StoreVault(op) => VaultStoredIsQuiet(s, op);
    case ResumeRegister(op, salt) => RegisterResumedIsQuiet(s, op, salt);
  }

  lemma CheckingStepIsQuiet(s: Server, step: Step)
    requires Ledger(s) && Possible(s, step) && (step.BeginSignIn? || step.CheckSignIn?)
    ensures Quiet(s, Apply(s, step), OpOf(step))
  {
    match step
    case BeginSignIn(op, username, password) => SignInBegunIsQuiet(s, op, username, password);
    case CheckSignIn(op) => SignInCheckedIsQuiet(s, op);
  }

  lemma UnlockingStepIsQuiet(s: Server, step: Step)
    requires Ledger(s) && Possible(s, step) && (step.Unlock? || step.EndSignIn?)
    ensures Quiet(s, Apply(s, step), OpOf(step))
  {
    match step
    case Unlock(op) => VaultUnlockedIsQuiet(s, op);
    case EndSignIn(op, sid, now) => SignInEndedIsQuiet(s, op, sid, now);
  }

  lemma SessionStepIsQuiet(s: Server, step: Step)
    requires Ledger(s) && Possible(s, step) && (step.SignOut? || step.Visit?)
    ensures Quiet(s, Apply(s, step), OpOf(step))
  {
    match step
    case SignOut(sid) => SignedOutIsOutside(s, sid);
      OutsideIsQuiet(s, SignedOut(s, sid));
    case Visit(sid, now) => SessionSeenIsOutside(s, sid, now);
      OutsideIsQuiet(s, SessionSeen(s, sid, now));
  }

  lemma ChangeStepIsQuiet(s: Server, step: Step)
    requires Ledger(s) && Possible(s, step) && Changing(step)
    ensures Quiet(s, Apply(s, step), OpOf(step))
  {
    ChangeIsOutside(s, step);
    OutsideIsQuiet(s, Apply(s, step));
  }

  lemma RewriteStepIsQuiet(s: Server, step: Step)
    requires Ledger(s) && Possible(s, step) && step.BeginRewrite?
    ensures Quiet(s, Apply(s, step), OpOf(step))
  {
    RewriteBegunIsQuiet(s, step.op, step.userId, step.password, step.salt);
  }

  // Only two steps write the accounts file. Any other changes at most its own frame.
  lemma StepIsQuiet(s: Server, step: Step)
    requires Ledger(s) && Possible(s, step) && !step.EndRegister? && !step.EndRewrite?
    ensures Quiet(s, Apply(s, step), OpOf(step))
  {
    if step.BeginRegister? || step.StoreVault? || step.ResumeRegister? {
      RegisterStepIsQuiet(s, step);
    } else if step.BeginSignIn? || step.CheckSignIn? {
      CheckingStepIsQuiet(s, step);
    } else if step.Unlock? || step.EndSignIn? {
      UnlockingStepIsQuiet(s, step);
    } else if Changing(step) {
      ChangeStepIsQuiet(s, step);
    } else if step.BeginRewrite? {
      RewriteStepIsQuiet(s, step);
    } else {
      SessionStepIsQuiet(s, step);
    }
  }

  lemma QuietKeepsLedger(s: Server, end: Server, op: nat)
    requires Ledger(s) && Quiet(s, end, op)
    ensures Ledger(end)
  {
  }

  lemma RegisterEndKeepsLedger(s: Server, op: nat, sid: string, now: int)
    requires Ledger(s) && op in s.ops && s.ops[op].Deriving?
    ensures Ledger(RegisterEnded(s, op, sid, now))
  {
    var o := s.ops[op];
    LogGrows(s, op, RegisterEnded(s, op, sid, now).ops, s.log + [o.uid]);
  }

  lemma LogGrows(s: Server, op: nat, ops: map<nat, Op>, log: seq<string>)
    requires Ledger(s) && op in s.ops && Registering(s.ops[op]) && ops == s.ops - {op} && log == s.log + [s.ops[op].uid]
    ensures Distinct(log) && Listed(s.users, log)
    ensures forall a :: a in ops ==> FrameLogged(ops[a], log)
  {
    assert forall x :: x in log <==> x in s.log || x == s.ops[op].uid;
  }

  lemma RewriteEndKeepsLedger(s: Server, op: nat)
    requires Ledger(s) && op in s.ops && s.ops[op].Rewriting?
    ensures Ledger(RewriteEnded(s, op))
  {
  }

  lemma StepKeepsLedger(s: Server, step: Step)
    requires Ledger(s) && Possible(s, step)
    ensures Ledger(Apply(s, step))
  {
    match step
    case EndRegister(op, sid, now) => RegisterEndKeepsLedger(s, op, sid, now);
    case EndRewrite(op) => RewriteEndKeepsLedger(s, op);
    case _ =>
      StepIsQuiet(s, step);
      QuietKeepsLedger(s, Apply(s, step), OpOf(step));
  }
}
