// Accounts, sessions and vault keys (src/server/account.ts, src/server/vault.ts).
// Every operation is cut at its `await`s: between two cuts it runs alone, across a
// cut anything else may run. A suspended operation keeps its local variables, and
// those are snapshots.
module Accounts {
  import opened Common
  import opened Text

  // scrypt, kept symbolic: equal results exactly for equal inputs.
  datatype Digest = Digest(password: string, salt: string)

  datatype User = User(id: string, username: string, salt: string, verifier: Digest)

  // The vault file: its salt, and the key that opens its check value.
  datatype VaultMeta = VaultMeta(salt: string, check: Digest)

  datatype Session = Session(userId: string, username: string, lastSeenAt: int)

  datatype AccountError =
    | UsernameLength | UsernameChars | PasswordLength | UsernameTaken
    | BadCredentials | VaultNotInitialized | VaultMismatch | NoAccount

  const MIN_PASSWORD: nat := 8
  const SESSION_IDLE_MS: int := 12 * 60 * 60 * 1000

  // An operation suspended at an `await`.
  datatype Op =
    // register, while `initialize` derives the vault key
    | Initializing(uid: string, username: string, password: string, salt: string)
    // register, once `initialize` has stored the key but before it resumes
    | Initialized(uid: string, username: string, password: string)
    // register, while the login verifier is derived
    | Deriving(uid: string, username: string, password: string, salt: string)
    // signIn, while the password is checked
    | Checking(user: Option<User>, password: string)
    // signIn, while `unlock` derives the vault key
    | Unlocking(account: User, password: string, meta: VaultMeta)
    // signIn, once `unlock` has answered but before it resumes
    | Unlocked(account: User, accepted: bool)
    // updateVerifier, holding the accounts file as it read it
    | Rewriting(users: seq<User>, userId: string, password: string, salt: string, mark: nat, since: nat)

  // changePassword of the vault, suspended at an `await`.
  datatype Change =
    // while `unlock` derives the key of the current password
    | Confirming(userId: string, current: string, next: string, meta: VaultMeta)
    // once `unlock` has answered but before it resumes
    | Confirmed(userId: string, next: string, accepted: bool)
    // while the new key is derived
    | Rewrapping(userId: string, next: string, salt: string)

  // `log` and `rewrites` are history: the ids in the order their accounts were written, and
  // in the order their verifiers were replaced. `mark` and `since` in a Rewriting frame are
  // their lengths at the time of the read. No decision reads any of them.
  datatype Server = Server(
    users: seq<User>,
    sessions: map<string, Session>,
    keys: map<string, Digest>,
    vaults: map<string, VaultMeta>,
    ops: map<nat, Op>,
    changes: map<nat, Change>,
    log: seq<string>,
    rewrites: seq<string>)

  const EMPTY_SERVER := Server([], map[], map[], map[], map[], map[], [], [])

  // ----- lookups --------------------------------------------------------------------

  function LowerChar(c: char): char {
    if 'A' <= c <= 'Z' then (c as int - 'A' as int + 'a' as int) as char else c
  }

  // `toLowerCase`, on the ASCII characters a username may hold.
  function Fold(s: string): string {
    seq(|s|, i requires 0 <= i < |s| => LowerChar(s[i]))
  }

  predicate Taken(users: seq<User>, username: string) {
    exists i :: 0 <= i < |users| && Fold(users[i].username) == Fold(username)
  }

  function FindByName(users: seq<User>, username: string): Option<User> {
    if users == [] then None
    else if Fold(users[0].username) == Fold(username) then Some(users[0])
    else FindByName(users[1..], username)
  }

  predicate HasId(users: seq<User>, id: string) {
    exists i :: 0 <= i < |users| && users[i].id == id
  }

  predicate UsernameChar(c: char) {
    'a' <= c <= 'z' || 'A' <= c <= 'Z' || '0' <= c <= '9' || c in {'_', '.', '@', ' ', '-'}
  }

  function UsernameProblem(raw: string): Option<AccountError> {
    var value := Trim(raw);
    if |value| < 3 || |value| > 64 then Some(UsernameLength)
    else if exists i :: 0 <= i < |value| && !UsernameChar(value[i]) then Some(UsernameChars)
    else None
  }

  // The accounts file with one user's verifier replaced.
  function Reverified(users: seq<User>, userId: string, password: string, salt: string): (r: seq<User>)
    ensures |r| == |users|
  {
    Map((u: User) => if u.id == userId then u.(salt := salt, verifier := Digest(password, salt)) else u, users)
  }

  // ----- the steps ---------------------------------------------------------------------

  function RegisterProblem(s: Server, username: string, password: string): Option<AccountError> {
    if UsernameProblem(username).Some? then UsernameProblem(username)
    else if |password| < MIN_PASSWORD then Some(PasswordLength)
    else if Taken(s.users, Trim(username)) then Some(UsernameTaken)
    else None
  }

  function RegisterBegun(s: Server, op: nat, username: string, password: string, uid: string, salt: string): Server {
    if RegisterProblem(s, username, password).Some? then s
    else s.(ops := s.ops[op := Initializing(uid, Trim(username), password, salt)])
  }

  function VaultStored(s: Server, op: nat): Server
    requires op in s.ops && s.ops[op].Initializing?
  {
    var o := s.ops[op];
    var key := Digest(o.password, o.salt);
    s.(vaults := s.vaults[o.uid := VaultMeta(o.salt, key)], keys := s.keys[o.uid := key],
       ops := s.ops[op := Initialized(o.uid, o.username, o.password)])
  }

  function RegisterResumed(s: Server, op: nat, salt: string): Server
    requires op in s.ops && s.ops[op].Initialized?
  {
    var o := s.ops[op];
    s.(ops := s.ops[op := Deriving(o.uid, o.username, o.password, salt)])
  }

  // The second check, the write and the session happen without a cut.
  function RegisterEnded(s: Server, op: nat, sid: string, now: int): Server
    requires op in s.ops && s.ops[op].Deriving?
  {
    var o := s.ops[op];
    if Taken(s.users, o.username) then s.(keys := s.keys - {o.uid}, ops := s.ops - {op})
    else
      var user := User(o.uid, o.username, o.salt, Digest(o.password, o.salt));
      s.(users := s.users + [user], log := s.log + [o.uid],
         sessions := s.sessions[sid := Session(o.uid, o.username, now)], ops := s.ops - {op})
  }

  function SignInBegun(s: Server, op: nat, username: string, password: string): Server {
    s.(ops := s.ops[op := Checking(FindByName(s.users, Trim(username)), password)])
  }

  function SignInProblem(s: Server, op: nat): Option<AccountError>
    requires op in s.ops && s.ops[op].Checking?
  {
    var o := s.ops[op];
    if o.user.None? || Digest(o.password, o.user.value.salt) != o.user.value.verifier then Some(BadCredentials)
    else if o.user.value.id !in s.vaults then Some(VaultNotInitialized)
    else None
  }

  function SignInChecked(s: Server, op: nat): Server
    requires op in s.ops && s.ops[op].Checking?
  {
    var o := s.ops[op];
    if SignInProblem(s, op).Some? then s.(ops := s.ops - {op})
    else s.(ops := s.ops[op := Unlocking(o.user.value, o.password, s.vaults[o.user.value.id])])
  }

  function VaultUnlocked(s: Server, op: nat): Server
    requires op in s.ops && s.ops[op].Unlocking?
  {
    var o := s.ops[op];
    var key := Digest(o.password, o.meta.salt);
    if key == o.meta.check then
      s.(keys := s.keys[o.account.id := key], ops := s.ops[op := Unlocked(o.account, true)])
    else s.(ops := s.ops[op := Unlocked(o.account, false)])
  }

  function SignInEnded(s: Server, op: nat, sid: string, now: int): Server
    requires op in s.ops && s.ops[op].Unlocked?
  {
    var o := s.ops[op];
    if !o.accepted then s.(ops := s.ops - {op})
    else s.(sessions := s.sessions[sid := Session(o.account.id, o.account.username, now)], ops := s.ops - {op})
  }

  predicate SignedIn(sessions: map<string, Session>, userId: string) {
    exists sid :: sid in sessions && sessions[sid].userId == userId
  }

  function SignedOut(s: Server, sid: string): Server {
    if sid !in s.sessions then s
    else
      var userId := s.sessions[sid].userId;
      var left := s.sessions - {sid};
      s.(sessions := left, keys := if SignedIn(left, userId) then s.keys else s.keys - {userId})
  }

  // Idle expiry drops the session and leaves the key.
  function SessionSeen(s: Server, sid: string, now: int): Server {
    if sid !in s.sessions then s
    else if now - s.sessions[sid].lastSeenAt > SESSION_IDLE_MS then s.(sessions := s.sessions - {sid})
    else s.(sessions := s.sessions[sid := s.sessions[sid].(lastSeenAt := now)])
  }

  function RewriteBegun(s: Server, op: nat, userId: string, password: string, salt: string): Server {
    if !HasId(s.users, userId) then s
    else s.(ops := s.ops[op := Rewriting(s.users, userId, password, salt, |s.log|, |s.rewrites|)])
  }

  function RewriteEnded(s: Server, op: nat): Server
    requires op in s.ops && s.ops[op].Rewriting?
  {
    var o := s.ops[op];
    s.(users := Reverified(o.users, o.userId, o.password, o.salt), ops := s.ops - {op},
       rewrites := s.rewrites + [o.userId])
  }

  // A request to change the password comes with a session.
  predicate ChangeRefused(s: Server, userId: string, current: string, next: string) {
    !SignedIn(s.sessions, userId) || userId !in s.vaults || current == "" || |next| < MIN_PASSWORD
  }

  function ChangeBegun(s: Server, op: nat, userId: string, current: string, next: string): Server {
    if ChangeRefused(s, userId, current, next) then s
    else s.(changes := s.changes[op := Confirming(userId, current, next, s.vaults[userId])])
  }

  function ChangeConfirmed(s: Server, op: nat): Server
    requires op in s.changes && s.changes[op].Confirming?
  {
    var c := s.changes[op];
    var key := Digest(c.current, c.meta.salt);
    if key == c.meta.check then
      s.(keys := s.keys[c.userId := key], changes := s.changes[op := Confirmed(c.userId, c.next, true)])
    else s.(changes := s.changes[op := Confirmed(c.userId, c.next, false)])
  }

  // The vault file is read again; it needs the vault to be open still.
  function ChangeResumed(s: Server, op: nat): Server
    requires op in s.changes && s.changes[op].Confirmed?
  {
    var c := s.changes[op];
    if !c.accepted || c.userId !in s.keys || c.userId !in s.vaults then s.(changes := s.changes - {op})
    else s.(changes := s.changes[op := Rewrapping(c.userId, c.next, s.vaults[c.userId].salt)])
  }

  function ChangeEnded(s: Server, op: nat): Server
    requires op in s.changes && s.changes[op].Rewrapping?
  {
    var c := s.changes[op];
    var key := Digest(c.next, c.salt);
    s.(vaults := s.vaults[c.userId := VaultMeta(c.salt, key)], keys := s.keys[c.userId := key],
       changes := s.changes - {op})
  }

  // ----- the server process ----------------------------------------------------------------

  class AccountServer {
    var users: seq<User>
    var sessions: map<string, Session>
    var keys: map<string, Digest>
    var vaults: map<string, VaultMeta>
    var ops: map<nat, Op>
    var changes: map<nat, Change>
    var log: seq<string>
    var rewrites: seq<string>

    function State(): Server
      reads this
    {
      Server(users, sessions, keys, vaults, ops, changes, log, rewrites)
    }

    constructor ()
      ensures State() == EMPTY_SERVER
    {
      users, sessions, keys, vaults, ops, changes := [], map[], map[], map[], map[], map[];
      log, rewrites := [], [];
    }

    method FindUser(username: string) returns (r: Option<User>)
      ensures r == FindByName(users, username)
    {
      for i := 0 to |users|
        invariant FindByName(users, username) == FindByName(users[i..], username)
      {
        if Fold(users[i].username) == Fold(username) {
          return Some(users[i]);
        }
      }
      return None;
    }

    method RegisterBegin(op: nat, username: string, password: string, uid: string, salt: string)
        returns (error: Option<AccountError>)
      requires op !in ops
      modifies this`ops
      ensures State() == RegisterBegun(old(State()), op, username, password, uid, salt)
      ensures error == RegisterProblem(old(State()), username, password)
    {
      error := UsernameProblem(username);
      if error.Some? {
        return;
      }
      if |password| < MIN_PASSWORD {
        return Some(PasswordLength);
      }
      var existing := FindUser(Trim(username));
      FoundIffTaken(users, Trim(username));
      if existing.Some? {
        return Some(UsernameTaken);
      }
      ops := ops[op := Initializing(uid, Trim(username), password, salt)];
    }

    // The part of `initialize` after its await.
    method StoreVault(op: nat)
      requires op in ops && ops[op].Initializing?
      modifies this`vaults, this`keys, this`ops
      ensures State() == VaultStored(old(State()), op)
    {
      var o := ops[op];
      var key := Digest(o.password, o.salt);
      vaults := vaults[o.uid := VaultMeta(o.salt, key)];
      keys := keys[o.uid := key];
      ops := ops[op := Initialized(o.uid, o.username, o.password)];
    }

    method RegisterResume(op: nat, salt: string)
      requires op in ops && ops[op].Initialized?
      modifies this`ops
      ensures State() == RegisterResumed(old(State()), op, salt)
    {
      var o := ops[op];
      ops := ops[op := Deriving(o.uid, o.username, o.password, salt)];
    }

    method Lock(userId: string)
      modifies this`keys
      ensures keys == old(keys) - {userId}
    {
      keys := keys - {userId};
    }

    method NewSession(sid: string, userId: string, username: string, now: int)
      modifies this`sessions
      ensures sessions == old(sessions)[sid := Session(userId, username, now)]
    {
      sessions := sessions[sid := Session(userId, username, now)];
    }

    method RegisterEnd(op: nat, sid: string, now: int) returns (error: Option<AccountError>)
      requires op in ops && ops[op].Deriving?
      modifies this
      ensures State() == RegisterEnded(old(State()), op, sid, now)
      ensures error == if Taken(old(users), old(ops)[op].username) then Some(UsernameTaken) else None
    {
      var o := ops[op];
      ops := ops - {op};
      var data := users;
      var clash := false;
      for i := 0 to |data|
        invariant clash <==> exists k :: 0 <= k < i && Fold(data[k].username) == Fold(o.username)
      {
        clash := clash || Fold(data[i].username) == Fold(o.username);
      }
      if clash {
        Lock(o.uid);
        return Some(UsernameTaken);
      }
      users := data + [User(o.uid, o.username, o.salt, Digest(o.password, o.salt))];
      log := log + [o.uid];
      NewSession(sid, o.uid, o.username, now);
      return None;
    }

    method SignInBegin(op: nat, username: string, password: string)
      requires op !in ops
      modifies this`ops
      ensures State() == SignInBegun(old(State()), op, username, password)
    {
      var user := FindUser(Trim(username));
      ops := ops[op := Checking(user, password)];
    }

    method SignInCheck(op: nat) returns (error: Option<AccountError>)
      requires op in ops && ops[op].Checking?
      modifies this`ops
      ensures State() == SignInChecked(old(State()), op)
      ensures error == SignInProblem(old(State()), op)
    {
      var o := ops[op];
      if o.user.None? || Digest(o.password, o.user.value.salt) != o.user.value.verifier {
        ops := ops - {op};
        return Some(BadCredentials);
      }
      if o.user.value.id !in vaults {
        ops := ops - {op};
        return Some(VaultNotInitialized);
      }
      ops := ops[op := Unlocking(o.user.value, o.password, vaults[o.user.value.id])];
      return None;
    }

    // The part of `unlock` after its await.
    method Unlock(op: nat)
      requires op in ops && ops[op].Unlocking?
      modifies this`keys, this`ops
      ensures State() == VaultUnlocked(old(State()), op)
    {
      var o := ops[op];
      var key := Digest(o.password, o.meta.salt);
      if key != o.meta.check {
        ops := ops[op := Unlocked(o.account, false)];
        return;
      }
      keys := keys[o.account.id := key];
      ops := ops[op := Unlocked(o.account, true)];
    }

    method SignInEnd(op: nat, sid: string, now: int) returns (error: Option<AccountError>)
      requires op in ops && ops[op].Unlocked?
      modifies this`sessions, this`ops
      ensures State() == SignInEnded(old(State()), op, sid, now)
      ensures error == if old(ops)[op].accepted then None else Some(VaultMismatch)
    {
      var o := ops[op];
      ops := ops - {op};
      if !o.accepted {
        return Some(VaultMismatch);
      }
      NewSession(sid, o.account.id, o.account.username, now);
      return None;
    }

    method SignOut(sid: string) returns (userId: Option<string>)
      modifies this`sessions, this`keys
      ensures State() == SignedOut(old(State()), sid)
      ensures userId == if sid in old(sessions) then Some(old(sessions)[sid].userId) else None
    {
      if sid !in sessions {
        return None;
      }
      var session := sessions[sid];
      sessions := sessions - {sid};
      var stillSignedIn := exists other :: other in sessions && sessions[other].userId == session.userId;
      if !stillSignedIn {
        Lock(session.userId);
      }
      return Some(session.userId);
    }

    method SessionFromCookie(sid: string, now: int) returns (r: Option<Session>)
      modifies this`sessions
      ensures State() == SessionSeen(old(State()), sid, now)
      ensures r == if sid in sessions then Some(sessions[sid]) else None
    {
      if sid !in sessions {
        return None;
      }
      if now - sessions[sid].lastSeenAt > SESSION_IDLE_MS {
        sessions := sessions - {sid};
        return None;
      }
      sessions := sessions[sid := sessions[sid].(lastSeenAt := now)];
      return Some(sessions[sid]);
    }

    method RewriteBegin(op: nat, userId: string, password: string, salt: string) returns (error: Option<AccountError>)
      requires op !in ops
      modifies this`ops
      ensures State() == RewriteBegun(old(State()), op, userId, password, salt)
      ensures error == if HasId(users, userId) then None else Some(NoAccount)
    {
      var data := users;
      if !HasId(data, userId) {
        return Some(NoAccount);
      }
      ops := ops[op := Rewriting(data, userId, password, salt, |log|, |rewrites|)];
      return None;
    }

    method RewriteEnd(op: nat)
      requires op in ops && ops[op].Rewriting?
      modifies this`users, this`ops, this`rewrites
      ensures State() == RewriteEnded(old(State()), op)
    {
      var o := ops[op];
      ops := ops - {op};
      users := Reverified(o.users, o.userId, o.password, o.salt);
      rewrites := rewrites + [o.userId];
    }

    method ChangeBegin(op: nat, userId: string, current: string, next: string) returns (refused: bool)
      requires op !in changes
      modifies this`changes
      ensures State() == ChangeBegun(old(State()), op, userId, current, next)
      ensures refused == ChangeRefused(old(State()), userId, current, next)
    {
      if !SignedIn(sessions, userId) || userId !in vaults || current == "" || |next| < MIN_PASSWORD {
        return true;
      }
      changes := changes[op := Confirming(userId, current, next, vaults[userId])];
      return false;
    }

    // The part of `unlock` after its await, called from `changePassword`.
    method ChangeConfirm(op: nat)
      requires op in changes && changes[op].Confirming?
      modifies this`keys, this`changes
      ensures State() == ChangeConfirmed(old(State()), op)
    {
      var c := changes[op];
      var key := Digest(c.current, c.meta.salt);
      if key != c.meta.check {
        changes := changes[op := Confirmed(c.userId, c.next, false)];
        return;
      }
      keys := keys[c.userId := key];
      changes := changes[op := Confirmed(c.userId, c.next, true)];
    }

    method ChangeResume(op: nat)
      requires op in changes && changes[op].Confirmed?
      modifies this`changes
      ensures State() == ChangeResumed(old(State()), op)
    {
      var c := changes[op];
      if !c.accepted || c.userId !in keys || c.userId !in vaults {
        changes := changes - {op};
        return;
      }
      changes := changes[op := Rewrapping(c.userId, c.next, vaults[c.userId].salt)];
    }

    method ChangeEnd(op: nat)
      requires op in changes && changes[op].Rewrapping?
      modifies this`vaults, this`keys, this`changes
      ensures State() == ChangeEnded(old(State()), op)
    {
      var c := changes[op];
      var key := Digest(c.next, c.salt);
      vaults := vaults[c.userId := VaultMeta(c.salt, key)];
      keys := keys[c.userId := key];
      changes := changes - {op};
    }
  }

  lemma {:induction false} FoundIffTaken(users: seq<User>, username: string)
    ensures FindByName(users, username).Some? <==> Taken(users, username)
    ensures FindByName(users, username).Some? ==> FindByName(users, username).value in users
  {
    if users != [] && Fold(users[0].username) != Fold(username) {
      FoundIffTaken(users[1..], username);
      if Taken(users, username) {
        var i :| 0 <= i < |users| && Fold(users[i].username) == Fold(username);
        assert users[1..][i - 1] == users[i];
      }
    }
  }
}
