// Runs that show what the conditions on account operations are needed for.
module AccountTraces {
  import opened Common
  import opened Accounts
  import opened AccountSteps
  import opened Text

  // ----- putting runs together ------------------------------------------------------------

  ghost predicate Reaches(s: Server, steps: seq<Step>, end: Server) {
    Feasible(s, steps) && Final(s, steps) == end
  }

  lemma One(s: Server, step: Step)
    requires Possible(s, step)
    ensures Reaches(s, [step], Apply(s, step))
  {
    assert [step][1..] == [];
  }

  lemma {:induction false} Then(s: Server, a: seq<Step>, mid: Server, b: seq<Step>, end: Server)
    requires Reaches(s, a, mid) && Reaches(mid, b, end)
    ensures Reaches(s, a + b, end)
    decreases |a|
  {
    if a == [] {
      assert a + b == b;
    } else {
      ConsAppend(a, b);
      Then(Apply(s, a[0]), a[1..], mid, b, end);
    }
  }

  lemma Two(s: Server, first: Step, mid: Server, second: Step)
    requires Possible(s, first) && mid == Apply(s, first) && Possible(mid, second)
    ensures Reaches(s, [first, second], Apply(mid, second))
  {
    One(s, first);
    One(mid, second);
    Then(s, [first], mid, [second], Apply(mid, second));
    assert [first] + [second] == [first, second];
  }

  // ----- overlapping password changes -------------------------------------------------------

  datatype PasswordChange = PasswordChange(userId: string, password: string, salt: string) {
    function Begin(op: nat): Step {
      BeginRewrite(op, userId, password, salt)
    }
  }

  lemma BothBegin(s: Server, a: nat, b: nat, first: PasswordChange, second: PasswordChange)
    requires a != b && a !in s.ops && b !in s.ops && HasId(s.users, first.userId) && HasId(s.users, second.userId)
    ensures var mid := RewriteBegun(s, a, first.userId, first.password, first.salt);
      Reaches(s, [first.Begin(a), second.Begin(b)], RewriteBegun(mid, b, second.userId, second.password, second.salt))
  {
    Two(s, first.Begin(a), Apply(s, first.Begin(a)), second.Begin(b));
  }

  lemma BothEnd(s: Server, a: nat, b: nat)
    requires a != b && a in s.ops && b in s.ops && s.ops[a].Rewriting? && s.ops[b].Rewriting?
    ensures Reaches(s, [EndRewrite(a), EndRewrite(b)], RewriteEnded(RewriteEnded(s, a), b))
  {
    Two(s, EndRewrite(a), Apply(s, EndRewrite(a)), EndRewrite(b));
  }

  // Two password changes that overlap: whatever the server held, the one written first
  // is undone.
  lemma OverlappedRewriteIsUndone(s: Server, a: nat, b: nat, first: PasswordChange, second: PasswordChange)
      returns (end: Server)
    requires a != b && a !in s.ops && b !in s.ops && HasId(s.users, first.userId) && HasId(s.users, second.userId)
    ensures Reaches(s, [first.Begin(a), second.Begin(b)] + [EndRewrite(a), EndRewrite(b)], end)
    ensures end.users == Reverified(s.users, second.userId, second.password, second.salt)
  {
    var one := RewriteBegun(s, a, first.userId, first.password, first.salt);
    var both := RewriteBegun(one, b, second.userId, second.password, second.salt);
    end := RewriteEnded(RewriteEnded(both, a), b);
    BothBegin(s, a, b, first, second);
    BothEnd(both, a, b);
    Then(s, [first.Begin(a), second.Begin(b)], both, [EndRewrite(a), EndRewrite(b)], end);
  }

  // ----- a registration and a sign-in that nothing interrupts ---------------------------------

  const PW := "correct horse"

  function KeyOf(uid: string, s: Server): Server {
    s.(vaults := s.vaults[uid := VaultMeta("s", Digest(PW, "s"))], keys := s.keys[uid := Digest(PW, "s")])
  }

  function Registered(s: Server, name: string, uid: string, sid: string): Server {
    KeyOf(uid, s).(users := s.users + [User(uid, Trim(name), "t", Digest(PW, "t"))], log := s.log + [uid],
                   sessions := s.sessions[sid := Session(uid, Trim(name), 0)])
  }

  lemma RegistersFirst(s: Server, op: nat, name: string, uid: string)
    requires Unused(s, uid) && op !in s.ops && RegisterProblem(s, name, PW).None?
    ensures Reaches(s, [BeginRegister(op, name, PW, uid, "s"), StoreVault(op)],
                    KeyOf(uid, s).(ops := s.ops[op := Initialized(uid, Trim(name), PW)]))
  {
    var begin := BeginRegister(op, name, PW, uid, "s");
    Two(s, begin, Apply(s, begin), StoreVault(op));
  }

  lemma RegistersLast(s: Server, op: nat, name: string, uid: string, sid: string, ops: map<nat, Op>)
    requires op !in ops && s.ops == ops[op := Initialized(uid, Trim(name), PW)] && sid !in s.sessions
    requires !Taken(s.users, Trim(name))
    ensures Reaches(s, [ResumeRegister(op, "t"), EndRegister(op, sid, 0)],
                    s.(users := s.users + [User(uid, Trim(name), "t", Digest(PW, "t"))], log := s.log + [uid],
                       sessions := s.sessions[sid := Session(uid, Trim(name), 0)], ops := ops))
  {
    var resume := ResumeRegister(op, "t");
    Two(s, resume, Apply(s, resume), EndRegister(op, sid, 0));
    assert Apply(s, resume).ops - {op} == ops;
  }

  lemma Registers(s: Server, op: nat, name: string, uid: string, sid: string) returns (steps: seq<Step>)
    requires Unused(s, uid) && op !in s.ops && sid !in s.sessions && RegisterProblem(s, name, PW).None?
    ensures Reaches(s, steps, Registered(s, name, uid, sid))
  {
    var mid := KeyOf(uid, s).(ops := s.ops[op := Initialized(uid, Trim(name), PW)]);
    RegistersFirst(s, op, name, uid);
    RegistersLast(mid, op, name, uid, sid, s.ops);
    var first := [BeginRegister(op, name, PW, uid, "s"), StoreVault(op)];
    var last := [ResumeRegister(op, "t"), EndRegister(op, sid, 0)];
    Then(s, first, mid, last, Registered(s, name, uid, sid));
    steps := first + last;
  }

  // A sign-in up to the point where its vault has been read.
  lemma StartsUnlocking(s: Server, op: nat, name: string, account: User)
    requires op !in s.ops && FindByName(s.users, Trim(name)) == Some(account)
    requires account.verifier == Digest(PW, account.salt) && account.id in s.vaults
    ensures Reaches(s, [BeginSignIn(op, name, PW), CheckSignIn(op)],
                    s.(ops := s.ops[op := Unlocking(account, PW, s.vaults[account.id])]))
  {
    var begin := BeginSignIn(op, name, PW);
    Two(s, begin, Apply(s, begin), CheckSignIn(op));
    assert Apply(s, begin).ops[op := Unlocking(account, PW, s.vaults[account.id])]
        == s.ops[op := Unlocking(account, PW, s.vaults[account.id])];
  }

  // ----- Ann and Bob ----------------------------------------------------------------------------

  lemma NamesAreFine()
    ensures Trim("ann") == "ann" && UsernameProblem("ann").None?
    ensures Trim("bob") == "bob" && UsernameProblem("bob").None?
    ensures Fold("ann") != Fold("bob")
  {
    TrimmedStays("ann");
    TrimmedStays("bob");
    assert Fold("ann")[0] == 'a' && Fold("bob")[0] == 'b';
  }

  const ANN := User("a", "ann", "t", Digest(PW, "t"))
  const ANN_VAULT := VaultMeta("s", Digest(PW, "s"))
  const WITH_ANN := Server([ANN], map["one" := Session("a", "ann", 0)], map["a" := Digest(PW, "s")],
                           map["a" := ANN_VAULT], map[], map[], ["a"], [])

  lemma AnnRegisters() returns (steps: seq<Step>)
    ensures Reaches(EMPTY_SERVER, steps, WITH_ANN)
  {
    NamesAreFine();
    steps := Registers(EMPTY_SERVER, 0, "ann", "a", "one");
    assert Registered(EMPTY_SERVER, "ann", "a", "one") == WITH_ANN;
  }

  const REWRITING := WITH_ANN.(ops := map[1 := Rewriting([ANN], "a", PW, "u", 1, 0)])

  lemma AnnStartsAChange()
    ensures Reaches(WITH_ANN, [BeginRewrite(1, "a", PW, "u")], REWRITING)
  {
    assert WITH_ANN.users[0].id == "a";
    One(WITH_ANN, BeginRewrite(1, "a", PW, "u"));
  }

  lemma BobRegisters() returns (steps: seq<Step>)
    ensures Reaches(REWRITING, steps, Registered(REWRITING, "bob", "b", "two"))
  {
    NamesAreFine();
    assert "b"[0] != "a"[0] && "two"[0] != "one"[0];
    steps := Registers(REWRITING, 2, "bob", "b", "two");
  }

  lemma BobIsGone()
    ensures var end := RewriteEnded(Registered(REWRITING, "bob", "b", "two"), 1);
      "b" in end.log && !HasId(end.users, "b") && SignedIn(end.sessions, "b")
  {
    var end := RewriteEnded(Registered(REWRITING, "bob", "b", "two"), 1);
    assert "b"[0] != "a"[0];
    assert end.log[1] == "b";
    assert end.sessions["two"].userId == "b";
  }

  // Ann starts a password change, Bob registers, Ann's change is written back: Bob is
  // signed in to an account that is no longer in the file.
  lemma OvertakingLosesAnAccount() returns (steps: seq<Step>, end: Server)
    ensures Reaches(EMPTY_SERVER, steps, end)
    ensures "b" in end.log && !HasId(end.users, "b") && SignedIn(end.sessions, "b")
  {
    var ann := AnnRegisters();
    AnnStartsAChange();
    Then(EMPTY_SERVER, ann, WITH_ANN, [BeginRewrite(1, "a", PW, "u")], REWRITING);
    var bob := BobRegisters();
    var both := Registered(REWRITING, "bob", "b", "two");
    Then(EMPTY_SERVER, ann + [BeginRewrite(1, "a", PW, "u")], REWRITING, bob, both);
    One(both, EndRewrite(1));
    end := RewriteEnded(both, 1);
    Then(EMPTY_SERVER, ann + [BeginRewrite(1, "a", PW, "u")] + bob, both, [EndRewrite(1)], end);
    steps := ann + [BeginRewrite(1, "a", PW, "u")] + bob + [EndRewrite(1)];
    BobIsGone();
  }

  const UNLOCKING := WITH_ANN.(ops := map[1 := Unlocking(ANN, PW, ANN_VAULT)])

  lemma SecondTabStarts() returns (steps: seq<Step>)
    ensures Reaches(EMPTY_SERVER, steps, UNLOCKING)
  {
    var ann := AnnRegisters();
    TrimmedStays("ann");
    StartsUnlocking(WITH_ANN, 1, "ann", ANN);
    Then(EMPTY_SERVER, ann, WITH_ANN, [BeginSignIn(1, "ann", PW), CheckSignIn(1)], UNLOCKING);
    steps := ann + [BeginSignIn(1, "ann", PW), CheckSignIn(1)];
  }

  const UNLOCKED := WITH_ANN.(ops := map[1 := Unlocked(ANN, true)])

  lemma SecondTabUnlocks()
    ensures Reaches(UNLOCKING, [Unlock(1)], UNLOCKED)
  {
    One(UNLOCKING, Unlock(1));
    assert UNLOCKING.keys["a" := Digest(PW, "s")] == UNLOCKED.keys;
    assert UNLOCKING.ops[1 := Unlocked(ANN, true)] == UNLOCKED.ops;
  }

  lemma FirstTabLeaves()
    ensures var out := SignedOut(UNLOCKED, "one"); var end := SignInEnded(out, 1, "two", 0);
      Reaches(UNLOCKED, [SignOut("one"), EndSignIn(1, "two", 0)], end) && SignedIn(end.sessions, "a") &&
        "a" !in end.keys
  {
    assert UNLOCKED.sessions - {"one"} == map[];
    var out := SignedOut(UNLOCKED, "one");
    Two(UNLOCKED, SignOut("one"), out, EndSignIn(1, "two", 0));
    assert "two" in SignInEnded(out, 1, "two", 0).sessions;
  }

  // A second tab's sign-in has unlocked the vault when the first tab signs out: the
  // second tab gets a session whose vault is locked.
  lemma RobbingStrandsASession() returns (steps: seq<Step>, end: Server)
    ensures Reaches(EMPTY_SERVER, steps, end)
    ensures SignedIn(end.sessions, "a") && "a" !in end.keys
  {
    var start := SecondTabStarts();
    SecondTabUnlocks();
    Then(EMPTY_SERVER, start, UNLOCKING, [Unlock(1)], UNLOCKED);
    FirstTabLeaves();
    end := SignInEnded(SignedOut(UNLOCKED, "one"), 1, "two", 0);
    Then(EMPTY_SERVER, start + [Unlock(1)], UNLOCKED, [SignOut("one"), EndSignIn(1, "two", 0)], end);
    steps := start + [Unlock(1)] + [SignOut("one"), EndSignIn(1, "two", 0)];
  }

  // ----- a vault rewritten while it is being unlocked ---------------------------------------------

  const NEXT := "battery staple"
  const REKEYED := UNLOCKING.(vaults := map["a" := VaultMeta("s", Digest(NEXT, "s"))],
    keys := map["a" := Digest(NEXT, "s")])
  const REWRAPPING := UNLOCKING.(changes := map[2 := Rewrapping("a", NEXT, "s")])
  const CONFIRMED := UNLOCKING.(changes := map[2 := Confirmed("a", NEXT, true)])

  lemma FirstTabConfirms()
    ensures Reaches(UNLOCKING, [BeginChange(2, "a", PW, NEXT), ConfirmChange(2)], CONFIRMED)
  {
    assert UNLOCKING.sessions["one"].userId == "a";
    var begun := UNLOCKING.(changes := map[2 := Confirming("a", PW, NEXT, ANN_VAULT)]);
    assert Apply(UNLOCKING, BeginChange(2, "a", PW, NEXT)) == begun;
    Two(UNLOCKING, BeginChange(2, "a", PW, NEXT), begun, ConfirmChange(2));
    assert begun.keys["a" := Digest(PW, "s")] == begun.keys;
  }

  lemma VaultIsWritten()
    ensures ChangeEnded(REWRAPPING, 2) == REKEYED
  {
    assert REWRAPPING.changes - {2} == map[];
    assert REWRAPPING.vaults["a" := VaultMeta("s", Digest(NEXT, "s"))] == REKEYED.vaults;
    assert REWRAPPING.keys["a" := Digest(NEXT, "s")] == REKEYED.keys;
  }

  lemma FirstTabRewraps()
    ensures Reaches(CONFIRMED, [ResumeChange(2), EndChange(2)], REKEYED)
  {
    VaultIsWritten();
    assert CONFIRMED.changes[2 := Rewrapping("a", NEXT, "s")] == REWRAPPING.changes;
    Two(CONFIRMED, ResumeChange(2), REWRAPPING, EndChange(2));
  }

  // The second tab has read the vault file when the first changes the password. It then
  // stores the key of the old password, which the vault no longer opens with.
  lemma OutdatedUnlockStoresAnOldKey() returns (steps: seq<Step>, end: Server)
    ensures Reaches(EMPTY_SERVER, steps, end)
    ensures "a" in end.keys && "a" in end.vaults && SignedIn(end.sessions, "a") &&
      end.keys["a"] != end.vaults["a"].check
  {
    var start := SecondTabStarts();
    FirstTabConfirms();
    FirstTabRewraps();
    var confirm, rewrap := [BeginChange(2, "a", PW, NEXT), ConfirmChange(2)], [ResumeChange(2), EndChange(2)];
    Then(EMPTY_SERVER, start, UNLOCKING, confirm, CONFIRMED);
    Then(EMPTY_SERVER, start + confirm, CONFIRMED, rewrap, REKEYED);
    One(REKEYED, Unlock(1));
    end := VaultUnlocked(REKEYED, 1);
    Then(EMPTY_SERVER, start + confirm + rewrap, REKEYED, [Unlock(1)], end);
    steps := start + confirm + rewrap + [Unlock(1)];
    assert PW[0] != NEXT[0];
    assert end.sessions["one"].userId == "a";
  }
}
