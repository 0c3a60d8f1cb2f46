// What every interleaving of the account operations keeps of the accounts file: usernames
// stay unique, accounts are lost in exactly one way, and so are new verifiers.
module AccountRuns {
  import opened Common
  import opened Accounts
  import opened AccountSteps
  import opened Text

  // ----- usernames ------------------------------------------------------------------

  ghost predicate UniqueNames(users: seq<User>) {
    forall i, j :: 0 <= i < j < |users| ==> Fold(users[i].username) != Fold(users[j].username)
  }

  // The file, and every stale copy of it that is going to be written back.
  ghost predicate NamesInv(s: Server) {
    && UniqueNames(s.users)
    && forall op :: op in s.ops && s.ops[op].Rewriting? ==> UniqueNames(s.ops[op].users)
  }

  lemma WritesKeepNames(s: Server, step: Step)
    requires NamesInv(s) && Possible(s, step) && (step.EndRegister? || step.EndRewrite?)
    ensures NamesInv(Apply(s, step))
  {
  }

  lemma StepKeepsNames(s: Server, step: Step)
    requires Ledger(s) && NamesInv(s) && Possible(s, step)
    ensures NamesInv(Apply(s, step))
  {
    if step.EndRegister? || step.EndRewrite? {
      WritesKeepNames(s, step);
    } else {
      StepIsQuiet(s, step);
    }
  }

  lemma {:induction false} UsernamesStayUnique(s: Server, steps: seq<Step>)
    requires Ledger(s) && NamesInv(s) && Feasible(s, steps)
    ensures NamesInv(Final(s, steps))
    decreases |steps|
  {
    if steps != [] {
      StepKeepsLedger(s, steps[0]);
      StepKeepsNames(s, steps[0]);
      UsernamesStayUnique(Apply(s, steps[0]), steps[1..]);
    }
  }

  // No two accounts of any reachable accounts file answer to the same username.
  lemma UsernamesAreAlwaysUnique(steps: seq<Step>)
    requires Feasible(EMPTY_SERVER, steps)
    ensures UniqueNames(Final(EMPTY_SERVER, steps).users)
  {
    UsernamesStayUnique(EMPTY_SERVER, steps);
  }

  // ----- which accounts survive --------------------------------------------------------

  function Ids(users: seq<User>): (r: seq<string>)
    ensures |r| == |users| && forall i :: 0 <= i < |r| ==> r[i] == users[i].id
  {
    Map((u: User) => u.id, users)
  }

  // One list of users holds the same accounts as another, verifiers aside.
  ghost predicate SameAccounts(a: seq<User>, b: seq<User>) {
    && |a| == |b|
    && forall i :: 0 <= i < |a| ==> a[i].id == b[i].id && a[i].username == b[i].username
  }

  ghost predicate CopyOfPrefix(copy: seq<User>, mark: nat, users: seq<User>) {
    mark <= |users| && SameAccounts(copy, users[..mark])
  }

  // Nothing written has been lost, and every pending rewrite holds a copy of the
  // accounts as they were when `mark` of them had been written.
  ghost predicate Intact(s: Server) {
    && Ids(s.users) == s.log
    && forall op :: op in s.ops && s.ops[op].Rewriting? ==> CopyOfPrefix(s.ops[op].users, s.ops[op].mark, s.users)
  }

  // The step writes back a copy read before the latest registration was written.
  ghost predicate Overtaken(s: Server, step: Step) {
    step.EndRewrite? && step.op in s.ops && s.ops[step.op].Rewriting? && s.ops[step.op].mark < |s.log|
  }

  // What a rewrite leaves of the accounts file: everything written before its read.
  lemma RewriteRestoresItsCopy(s: Server, op: nat)
    requires Ledger(s) && Intact(s) && op in s.ops && s.ops[op].Rewriting?
    ensures var after := RewriteEnded(s, op).users; var mark := s.ops[op].mark;
      && SameAccounts(after, s.users[..mark])
      && (forall i :: mark <= i < |s.log| ==> !HasId(after, s.log[i]))
      && (SameAccounts(after, s.users) <==> !Overtaken(s, EndRewrite(op)))
  {
  }

  lemma RegisterEndKeepsIntact(s: Server, op: nat, sid: string, now: int)
    requires Ledger(s) && Intact(s) && op in s.ops && s.ops[op].Deriving?
    ensures var end := RegisterEnded(s, op, sid, now); Intact(end) && CopyOfPrefix(s.users, |s.users|, end.users)
  {
    var end := RegisterEnded(s, op, sid, now);
    assert end.users[..|s.users|] == s.users;
    forall a | a in end.ops && end.ops[a].Rewriting?
      ensures CopyOfPrefix(end.ops[a].users, end.ops[a].mark, end.users) {
      assert end.ops[a] == s.ops[a];
      assert end.users[..s.ops[a].mark] == s.users[..s.ops[a].mark];
    }
  }

  lemma RewriteEndKeepsIntact(s: Server, op: nat)
    requires Ledger(s) && Intact(s) && op in s.ops && s.ops[op].Rewriting?
    ensures var end := RewriteEnded(s, op);
      && (Intact(end) <==> !Overtaken(s, EndRewrite(op)))
      && (!Overtaken(s, EndRewrite(op)) ==> CopyOfPrefix(s.users, |s.users|, end.users))
  {
    var end := RewriteEnded(s, op);
    assert |Ids(end.users)| == s.ops[op].mark;
    if s.ops[op].mark == |s.log| {
      RewriteRestoresItsCopy(s, op);
      assert Ids(end.users) == end.log;
      forall a | a in end.ops && end.ops[a].Rewriting?
        ensures CopyOfPrefix(end.ops[a].users, end.ops[a].mark, end.users) {
        assert end.ops[a] == s.ops[a];
      }
    }
  }

  lemma StepKeepsIntact(s: Server, step: Step)
    requires Ledger(s) && Intact(s) && Possible(s, step)
    ensures Intact(Apply(s, step)) <==> !Overtaken(s, step)
    ensures !Overtaken(s, step) ==> CopyOfPrefix(s.users, |s.users|, Apply(s, step).users)
  {
    if step.EndRegister? {
      RegisterEndKeepsIntact(s, step.op, step.sid, step.now);
    } else if step.EndRewrite? {
      RewriteEndKeepsIntact(s, step.op);
    } else {
      StepIsQuiet(s, step);
      QuietKeepsIntact(s, Apply(s, step), OpOf(step));
    }
  }

  lemma QuietKeepsIntact(s: Server, end: Server, op: nat)
    requires Intact(s) && Quiet(s, end, op)
    ensures Intact(end) && CopyOfPrefix(s.users, |s.users|, end.users)
  {
    assert s.users[..|s.users|] == s.users;
    assert |Ids(s.users)| == |s.log|;
  }

  ghost predicate NeverOvertaken(s: Server, steps: seq<Step>)
    requires Feasible(s, steps)
    decreases |steps|
  {
    steps == [] || (!Overtaken(s, steps[0]) && NeverOvertaken(Apply(s, steps[0]), steps[1..]))
  }

  // An account once written stays, with its name, through any interleaving in which no
  // registration commits between the read and the write of an `updateVerifier`.
  lemma {:induction false} NoAccountDisappears(s: Server, steps: seq<Step>)
    requires Ledger(s) && Intact(s) && Feasible(s, steps) && NeverOvertaken(s, steps)
    ensures var end := Final(s, steps);
      Ledger(end) && Intact(end) && CopyOfPrefix(s.users, |s.users|, end.users)
    decreases |steps|
  {
    if steps != [] {
      StepKeepsLedger(s, steps[0]);
      StepKeepsIntact(s, steps[0]);
      NoAccountDisappears(Apply(s, steps[0]), steps[1..]);
    }
  }

  // ----- verifiers ---------------------------------------------------------------------------

  // Salts are random: this one is in no account, in no held copy and in no suspended call.
  ghost predicate NewSalt(s: Server, salt: string) {
    && SaltFree(s.users, salt)
    && (forall op :: op in s.ops && s.ops[op].Rewriting? ==> s.ops[op].salt != salt && SaltFree(s.ops[op].users, salt))
    && (forall op :: op in s.ops && s.ops[op].Deriving? ==> s.ops[op].salt != salt)
  }

  predicate SaltFree(users: seq<User>, salt: string) {
    forall i :: 0 <= i < |users| ==> users[i].salt != salt
  }

  ghost predicate DrawsNewSalt(s: Server, step: Step) {
    (step.BeginRewrite? || step.ResumeRegister? ==> NewSalt(s, step.salt))
  }

  // The salt of a pending rewrite is still nowhere else.
  ghost predicate SaltsApart(s: Server) {
    forall a :: a in s.ops && s.ops[a].Rewriting? ==>
      && SaltFree(s.users, s.ops[a].salt)
      && (forall b :: b in s.ops && s.ops[b].Rewriting? ==>
            SaltFree(s.ops[b].users, s.ops[a].salt) && (a != b ==> s.ops[b].salt != s.ops[a].salt))
      && (forall b :: b in s.ops && s.ops[b].Deriving? ==> s.ops[b].salt != s.ops[a].salt)
  }

  // Of an account in a held copy: it is the account in the file, or another password
  // change of that account was written since the copy was read, and its salt is new.
  ghost predicate CopyTells(copy: seq<User>, since: seq<string>, users: seq<User>) {
    && |copy| <= |users|
    && forall i :: 0 <= i < |copy| ==>
         && copy[i].id == users[i].id
         && if copy[i].id in since then copy[i].salt != users[i].salt else copy[i] == users[i]
  }

  ghost predicate CopiesTell(s: Server) {
    forall a :: a in s.ops && s.ops[a].Rewriting? ==>
      s.ops[a].since <= |s.rewrites| && CopyTells(s.ops[a].users, s.rewrites[s.ops[a].since..], s.users)
  }

  // The step writes back a copy that is older than a password change of another user.
  ghost predicate Crosses(s: Server, step: Step) {
    && step.EndRewrite? && step.op in s.ops && s.ops[step.op].Rewriting? && s.ops[step.op].since <= |s.rewrites|
    && var o := s.ops[step.op]; exists id :: id in s.rewrites[o.since..] && id != o.userId
  }

  // Password changes are only ever those of accounts.
  ghost predicate RewritesKnown(s: Server) {
    && (forall id :: id in s.rewrites ==> id in s.log)
    && (forall a :: a in s.ops && s.ops[a].Rewriting? ==> s.ops[a].userId in s.log)
  }

  // A rewrite in time to lose no account leaves every other account whole exactly when no
  // other account's password change was written since its read.
  lemma RewriteKeepsOthersIff(s: Server, op: nat)
    requires Intact(s) && RewritesKnown(s) && CopiesTell(s)
    requires op in s.ops && s.ops[op].Rewriting? && !Overtaken(s, EndRewrite(op))
    ensures var o, after := s.ops[op], RewriteEnded(s, op).users;
      && |after| == |s.users|
      && ((forall i :: 0 <= i < |s.users| && s.users[i].id != o.userId ==> after[i] == s.users[i]) <==>
            !Crosses(s, EndRewrite(op)))
  {
    var o, after := s.ops[op], RewriteEnded(s, op).users;
    assert |Ids(s.users)| == |s.users| == |o.users|;
    if Crosses(s, EndRewrite(op)) {
      var id :| id in s.rewrites[o.since..] && id != o.userId;
      assert id in s.rewrites && id in s.log;
      var i :| 0 <= i < |s.log| && s.log[i] == id;
      assert s.users[i].id == id && after[i].salt == o.users[i].salt != s.users[i].salt;
    } else {
      forall i | 0 <= i < |s.users| && s.users[i].id != o.userId
        ensures after[i] == s.users[i]
      {
        assert o.users[i].id !in s.rewrites[o.since..];
      }
    }
  }

  // An account keeps its verifier, but for its own password change.
  ghost predicate KeepsVerifiers(s: Server, step: Step, end: Server)
    requires Possible(s, step)
  {
    && |s.users| <= |end.users|
    && forall i :: 0 <= i < |s.users| ==>
         end.users[i] == s.users[i] || (step.EndRewrite? && s.users[i].id == s.ops[step.op].userId)
  }

  lemma RewriteEndTells(s: Server, op: nat)
    requires Ledger(s) && Intact(s) && SaltsApart(s) && RewritesKnown(s) && CopiesTell(s)
    requires op in s.ops && s.ops[op].Rewriting? && !Overtaken(s, EndRewrite(op)) && !Crosses(s, EndRewrite(op))
    ensures CopiesTell(RewriteEnded(s, op)) && KeepsVerifiers(s, EndRewrite(op), RewriteEnded(s, op))
  {
    var o, end := s.ops[op], RewriteEnded(s, op);
    RewriteKeepsOthersIff(s, op);
    forall a | a in end.ops && end.ops[a].Rewriting?
      ensures CopyTells(end.ops[a].users, end.rewrites[end.ops[a].since..], end.users)
    {
      assert end.ops[a] == s.ops[a];
      CopyStillTells(s.ops[a].users, s.rewrites, s.ops[a].since, s.users, o, end.users);
    }
  }

  // One more password change, of the user of `o`, under a salt the copy does not have.
  lemma CopyStillTells(copy: seq<User>, rewrites: seq<string>, since: nat, users: seq<User>, o: Op, after: seq<User>)
    requires o.Rewriting? && since <= |rewrites| && CopyTells(copy, rewrites[since..], users) && SaltFree(copy, o.salt)
    requires |after| == |users|
    requires forall i :: 0 <= i < |users| ==>
      after[i].id == users[i].id && if users[i].id == o.userId then after[i].salt == o.salt else after[i] == users[i]
    ensures CopyTells(copy, (rewrites + [o.userId])[since..], after)
  {
    assert (rewrites + [o.userId])[since..] == rewrites[since..] + [o.userId];
  }

  lemma RegisterEndTells(s: Server, op: nat, sid: string, now: int)
    requires Ledger(s) && Intact(s) && CopiesTell(s) && op in s.ops && s.ops[op].Deriving?
    ensures CopiesTell(RegisterEnded(s, op, sid, now))
    ensures forall i :: 0 <= i < |s.users| ==>
      i < |RegisterEnded(s, op, sid, now).users| && RegisterEnded(s, op, sid, now).users[i] == s.users[i]
  {
  }

  lemma QuietTells(s: Server, end: Server, op: nat)
    requires CopiesTell(s) && Quiet(s, end, op)
    ensures CopiesTell(end)
  {
    assert s.rewrites[|s.rewrites|..] == [];
  }

  // While no copy is written back late, no password change is undone.
  lemma StepKeepsVerifiers(s: Server, step: Step)
    requires Ledger(s) && Intact(s) && SaltsApart(s) && RewritesKnown(s) && CopiesTell(s) && Possible(s, step)
    requires !Overtaken(s, step) && !Crosses(s, step)
    ensures CopiesTell(Apply(s, step)) && KeepsVerifiers(s, step, Apply(s, step))
  {
    if step.EndRewrite? {
      RewriteEndTells(s, step.op);
    } else if step.EndRegister? {
      RegisterEndTells(s, step.op, step.sid, step.now);
    } else {
      StepIsQuiet(s, step);
      QuietTells(s, Apply(s, step), OpOf(step));
    }
  }

  lemma RewriteEndKeepsKnown(s: Server, op: nat)
    requires RewritesKnown(s) && op in s.ops && s.ops[op].Rewriting?
    ensures RewritesKnown(RewriteEnded(s, op))
  {
  }

  lemma RegisterEndKeepsKnown(s: Server, op: nat, sid: string, now: int)
    requires RewritesKnown(s) && op in s.ops && s.ops[op].Deriving?
    ensures RewritesKnown(RegisterEnded(s, op, sid, now))
  {
  }

  lemma QuietKeepsKnown(s: Server, end: Server, op: nat)
    requires RewritesKnown(s) && Quiet(s, end, op)
    ensures RewritesKnown(end)
  {
  }

  lemma StepKeepsKnown(s: Server, step: Step)
    requires Ledger(s) && RewritesKnown(s) && Possible(s, step)
    ensures RewritesKnown(Apply(s, step))
  {
    if step.EndRewrite? {
      RewriteEndKeepsKnown(s, step.op);
    } else if step.EndRegister? {
      RegisterEndKeepsKnown(s, step.op, step.sid, step.now);
    } else {
      StepIsQuiet(s, step);
      QuietKeepsKnown(s, Apply(s, step), OpOf(step));
    }
  }

  // ----- salts stay apart ----------------------------------------------------------------------

  // No frame of `end` that holds a salt is new, but for `op`, whose salt is.
  ghost predicate SaltsStay(s: Server, end: Server, op: nat) {
    && end.users == s.users
    && forall a :: a in end.ops && (end.ops[a].Rewriting? || end.ops[a].Deriving?) ==>
         || (a in s.ops && end.ops[a] == s.ops[a])
         || (a == op && NewSalt(s, end.ops[a].salt) && (end.ops[a].Rewriting? ==> end.ops[a].users == s.users))
  }

  lemma StayingKeepsApart(s: Server, end: Server, op: nat)
    requires SaltsApart(s) && SaltsStay(s, end, op)
    ensures SaltsApart(end)
  {
  }

  lemma RegisterKeepsSalts(s: Server, step: Step)
    requires Possible(s, step) && DrawsNewSalt(s, step) &&
      (step.BeginRegister? || step.StoreVault? || step.ResumeRegister?)
    ensures SaltsStay(s, Apply(s, step), OpOf(step))
  {
  }

  lemma CheckingKeepsSalts(s: Server, step: Step)
    requires Possible(s, step) && (step.BeginSignIn? || step.CheckSignIn?)
    ensures SaltsStay(s, Apply(s, step), OpOf(step))
  {
  }

  lemma UnlockingKeepsSalts(s: Server, step: Step)
    requires Possible(s, step) && (step.Unlock? || step.EndSignIn?)
    ensures SaltsStay(s, Apply(s, step), OpOf(step))
  {
  }

  lemma SignInKeepsSalts(s: Server, step: Step)
    requires Possible(s, step) && (step.BeginSignIn? || step.CheckSignIn? || step.Unlock? || step.EndSignIn?)
    ensures SaltsStay(s, Apply(s, step), OpOf(step))
  {
    if step.BeginSignIn? || step.CheckSignIn? {
      CheckingKeepsSalts(s, step);
    } else {
      UnlockingKeepsSalts(s, step);
    }
  }

  lemma OutsideKeepsSalts(s: Server, step: Step)
    requires Possible(s, step) && (step.SignOut? || step.Visit? || Changing(step))
    ensures SaltsStay(s, Apply(s, step), OpOf(step))
  {
    if Changing(step) {
      ChangeIsOutside(s, step);
    }
  }

  lemma RewriteKeepsSalts(s: Server, step: Step)
    requires Possible(s, step) && DrawsNewSalt(s, step) && step.BeginRewrite?
    ensures SaltsStay(s, Apply(s, step), OpOf(step))
  {
  }

  lemma StepKeepsSalts(s: Server, step: Step)
    requires Possible(s, step) && DrawsNewSalt(s, step) && !step.EndRegister? && !step.EndRewrite?
    ensures SaltsStay(s, Apply(s, step), OpOf(step))
  {
    if step.BeginRegister? || step.StoreVault? || step.ResumeRegister? {
      RegisterKeepsSalts(s, step);
    } else if step.BeginSignIn? || step.CheckSignIn? || step.Unlock? || step.EndSignIn? {
      SignInKeepsSalts(s, step);
    } else if step.BeginRewrite? {
      RewriteKeepsSalts(s, step);
    } else {
      OutsideKeepsSalts(s, step);
    }
  }

  lemma RegisterEndKeepsApart(s: Server, op: nat, sid: string, now: int)
    requires SaltsApart(s) && op in s.ops && s.ops[op].Deriving?
    ensures SaltsApart(RegisterEnded(s, op, sid, now))
  {
  }

  lemma RewriteEndKeepsApart(s: Server, op: nat)
    requires SaltsApart(s) && op in s.ops && s.ops[op].Rewriting?
    ensures SaltsApart(RewriteEnded(s, op))
  {
  }

  lemma StepKeepsApart(s: Server, step: Step)
    requires SaltsApart(s) && Possible(s, step) && DrawsNewSalt(s, step)
    ensures SaltsApart(Apply(s, step))
  {
    match step
    case EndRegister(op, sid, now) => RegisterEndKeepsApart(s, op, sid, now);
    case EndRewrite(op) => RewriteEndKeepsApart(s, op);
    case _ =>
      StepKeepsSalts(s, step);
      StayingKeepsApart(s, Apply(s, step), OpOf(step));
  }

  ghost predicate NeverCrossed(s: Server, steps: seq<Step>)
    requires Feasible(s, steps)
    decreases |steps|
  {
    steps == [] || (
      && !Overtaken(s, steps[0]) && !Crosses(s, steps[0]) && DrawsNewSalt(s, steps[0])
      && NeverCrossed(Apply(s, steps[0]), steps[1..]))
  }

  ghost predicate Settled(s: Server) {
    Ledger(s) && Intact(s) && SaltsApart(s) && RewritesKnown(s) && CopiesTell(s)
  }

  lemma {:induction false} RunStaysSettled(s: Server, steps: seq<Step>)
    requires Settled(s) && Feasible(s, steps) && NeverCrossed(s, steps)
    ensures Settled(Final(s, steps))
    decreases |steps|
  {
    if steps != [] {
      var step := steps[0];
      StepKeepsLedger(s, step);
      StepKeepsIntact(s, step);
      StepKeepsApart(s, step);
      StepKeepsKnown(s, step);
      StepKeepsVerifiers(s, step);
      RunStaysSettled(Apply(s, step), steps[1..]);
    }
  }

  // At any point of any run in which no copy is written back late: the next step leaves
  // every verifier alone but that of its own password change, exactly when it is not such
  // a late write itself.
  lemma NoPasswordChangeIsUndone(steps: seq<Step>, next: Step)
    requires Feasible(EMPTY_SERVER, steps) && NeverCrossed(EMPTY_SERVER, steps)
    requires Possible(Final(EMPTY_SERVER, steps), next) && !Overtaken(Final(EMPTY_SERVER, steps), next)
    ensures var s := Final(EMPTY_SERVER, steps); KeepsVerifiers(s, next, Apply(s, next)) <==> !Crosses(s, next)
  {
    var s := Final(EMPTY_SERVER, steps);
    RunStaysSettled(EMPTY_SERVER, steps);
    if Crosses(s, next) {
      RewriteKeepsOthersIff(s, next.op);
    } else {
      StepKeepsVerifiers(s, next);
    }
  }
}
