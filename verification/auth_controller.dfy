/** Account creation and login. Password hashing and comparison are external and come in
    as functions. */
module AuthController {
  import opened Options
  import opened Http
  import opened Text
  import opened Models

  const MinPasswordLength: nat := 6

  /** The signup body; an absent field is the empty string. */
  datatype SignupRequest = SignupRequest(userName: string, email: string, password: string)

  /** A run of characters from `[^\s@]`. */
  predicate NoSpaceOrAt(s: string) {
    forall i :: 0 <= i < |s| ==> !IsSpace(s[i]) && s[i] != '@'
  }

  /** `/^[^\s@]+@[^\s@]+\.[^\s@]+$/` read literally: a local part, "@", a domain label, ".",
      and a last part, each non-empty and free of white space and "@". */
  ghost predicate MatchesEmailPattern(e: string) {
    exists at, dot | 0 < at && at + 1 < dot < |e| - 1 ::
      && e[at] == '@' && e[dot] == '.'
      && NoSpaceOrAt(e[..at]) && NoSpaceOrAt(e[at + 1..dot]) && NoSpaceOrAt(e[dot + 1..])
  }

  function CountChar(s: string, c: char): nat {
    if |s| == 0 then 0 else CountChar(s[..|s| - 1], c) + (if s[|s| - 1] == c then 1 else 0)
  }

  lemma {:induction false} CountCharZero(s: string, c: char)
    ensures CountChar(s, c) == 0 <==> c !in s
  {
    if |s| > 0 {
      CountCharZero(s[..|s| - 1], c);
      assert s == s[..|s| - 1] + [s[|s| - 1]];
    }
  }

  lemma {:induction false} CountCharSplit(a: string, b: string, c: char)
    ensures CountChar(a + b, c) == CountChar(a, c) + CountChar(b, c)
    decreases |b|
  {
    if |b| > 0 {
      CountCharSplit(a, b[..|b| - 1], c);
      assert (a + b)[..|a + b| - 1] == a + b[..|b| - 1];
    } else {
      assert a + b == a;
    }
  }

  /** The email check as the server computes it: no white space, exactly one "@" after a
      non-empty local part, and a "." in the domain that is neither its first nor its last
      character. */
  predicate EmailShape(e: string) {
    && (forall i :: 0 <= i < |e| ==> !IsSpace(e[i]))
    && CountChar(e, '@') == 1
    && exists at, dot | 0 < at && at + 1 < dot < |e| - 1 :: e[at] == '@' && e[dot] == '.'
  }

  /** Splitting a string around one of its characters. */
  lemma CountAround(e: string, at: nat, c: char)
    requires at < |e| && e[at] == c
    ensures CountChar(e, c) == CountChar(e[..at], c) + 1 + CountChar(e[at + 1..], c)
  {
    assert e == e[..at] + ([e[at]] + e[at + 1..]);
    CountCharSplit(e[..at], [e[at]] + e[at + 1..], c);
    CountCharSplit([e[at]], e[at + 1..], c);
    assert [e[at]][..0] == [];
  }

  /** Exactly one "@" at `at` means none before and none after. */
  lemma SingleAt(e: string, at: nat)
    requires at < |e| && e[at] == '@'
    ensures CountChar(e, '@') == 1 <==> '@' !in e[..at] && '@' !in e[at + 1..]
  {
    CountAround(e, at, '@');
    CountCharZero(e[..at], '@');
    CountCharZero(e[at + 1..], '@');
  }

  lemma ShapeGivesPattern(e: string)
    requires EmailShape(e)
    ensures MatchesEmailPattern(e)
  {
    var at, dot :| 0 < at && at + 1 < dot < |e| - 1 && e[at] == '@' && e[dot] == '.';
    SingleAt(e, at);
    assert NoSpaceOrAt(e[..at]);
    var after := e[at + 1..];
    var mid, last := e[at + 1..dot], e[dot + 1..];
    forall i | 0 <= i < |mid| ensures !IsSpace(mid[i]) && mid[i] != '@' {
      assert mid[i] == after[i];
    }
    forall i | 0 <= i < |last| ensures !IsSpace(last[i]) && last[i] != '@' {
      assert last[i] == after[i + dot - at];
    }
  }

  lemma PatternGivesShape(e: string)
    requires MatchesEmailPattern(e)
    ensures EmailShape(e)
  {
    var at, dot :| 0 < at && at + 1 < dot < |e| - 1 && e[at] == '@' && e[dot] == '.'
      && NoSpaceOrAt(e[..at]) && NoSpaceOrAt(e[at + 1..dot]) && NoSpaceOrAt(e[dot + 1..]);
    forall i | 0 <= i < |e| ensures !IsSpace(e[i]) {
      if i < at {
        assert e[i] == e[..at][i];
      } else if at < i < dot {
        assert e[i] == e[at + 1..dot][i - at - 1];
      } else if dot < i {
        assert e[i] == e[dot + 1..][i - dot - 1];
      }
    }
    forall k | at + 1 <= k < |e| ensures e[k] != '@' {
      if k < dot {
        assert e[k] == e[at + 1..dot][k - at - 1];
      } else if k > dot {
        assert e[k] == e[dot + 1..][k - dot - 1];
      }
    }
    var after := e[at + 1..];
    forall i | 0 <= i < |after| ensures after[i] != '@' {
      assert after[i] == e[at + 1 + i];
    }
    SingleAt(e, at);
  }

  /** The computed check accepts exactly the strings the pattern matches. */
  lemma EmailShapeMatchesPattern(e: string)
    ensures EmailShape(e) <==> MatchesEmailPattern(e)
  {
    if EmailShape(e) {
      ShapeGivesPattern(e);
    }
    if MatchesEmailPattern(e) {
      PatternGivesShape(e);
    }
  }

  /** `signup`. Checks run in the source's order; the stored password is the hash. */
  function Signup(s: Store, q: SignupRequest, hash: string -> string): (r: Step)
    ensures r.store.listings == s.listings && r.store.bookings == s.bookings
    ensures r.status in {Created, BadRequest}
    ensures q.userName == "" || q.email == "" || q.password == "" ==> r == Step(BadRequest, s)
    ensures |q.password| < MinPasswordLength ==> r == Step(BadRequest, s)
    ensures !MatchesEmailPattern(q.email) ==> r == Step(BadRequest, s)
    ensures FindUserByEmail(s.users, q.email).Some? ==> r == Step(BadRequest, s)
    ensures r.status == Created <==>
      && q.userName != "" && |q.password| >= MinPasswordLength && MatchesEmailPattern(q.email)
      && FindUserByEmail(s.users, q.email).None?
    ensures r.status == BadRequest ==> r.store == s
    ensures r.status == Created ==>
      && |r.store.users| == |s.users| + 1
      && r.store.users[..|s.users|] == s.users
      && var u := r.store.users[|s.users|];
      && u.userName == q.userName && u.email == q.email && u.password == hash(q.password)
      && u.avatar == ""
      && forall j :: 0 <= j < |s.users| ==> s.users[j].id != u.id
  {
    EmailShapeMatchesPattern(q.email);
    if q.userName == "" || q.email == "" || q.password == "" then Step(BadRequest, s)
    else if |q.password| < MinPasswordLength then Step(BadRequest, s)
    else if !EmailShape(q.email) then Step(BadRequest, s)
    else if FindUserByEmail(s.users, q.email).Some? then Step(BadRequest, s)
    else
      var u := User(NextUserId(s.users), q.userName, q.email, hash(q.password), "");
      assert (s.users + [u])[..|s.users|] == s.users;
      Step(Created, s.(users := s.users + [u]))
  }

  predicate UniqueEmails(us: seq<User>) {
    forall i, j :: 0 <= i < j < |us| ==> us[i].email != us[j].email
  }

  /** Signup keeps emails unique. */
  lemma SignupKeepsEmailsUnique(s: Store, q: SignupRequest, hash: string -> string)
    requires UniqueEmails(s.users)
    ensures UniqueEmails(Signup(s, q, hash).store.users)
  {
  }

  datatype LoginReply = LoginReply(status: Status, message: string, userId: Option<Id>)

  const InvalidCredentials: LoginReply := LoginReply(BadRequest, "Invalid credentials", None)

  /** `login`. `matches(password, stored)` is the hash comparison. An unknown email and a
      wrong password get the same answer. */
  function Login(s: Store, email: string, password: string, matches: (string, string) -> bool): (r: LoginReply)
    ensures FindUserByEmail(s.users, email).None? ==> r == InvalidCredentials
    ensures (FindUserByEmail(s.users, email).Some? &&
      !matches(password, s.users[FindUserByEmail(s.users, email).value].password)) ==> r == InvalidCredentials
    ensures r.status == Ok || r == InvalidCredentials
    ensures r.status == Ok <==>
      FindUserByEmail(s.users, email).Some? &&
      matches(password, s.users[FindUserByEmail(s.users, email).value].password)
    ensures r.status == Ok ==> r.userId == Some(s.users[FindUserByEmail(s.users, email).value].id)
    ensures r.status == Ok ==>
      exists i | 0 <= i < |s.users| :: s.users[i].email == email && r.userId == Some(s.users[i].id)
        && matches(password, s.users[i].password)
  {
    var i := FindUserByEmail(s.users, email);
    if i.None? then InvalidCredentials
    else if !matches(password, s.users[i.value].password) then InvalidCredentials
    else LoginReply(Ok, "", Some(s.users[i.value].id))
  }

  /** A fresh account can log straight in with the password it was created with, and the
      login names the new user; `matches` must accept a password against its own hash. */
  lemma SignupThenLogin(s: Store, q: SignupRequest, hash: string -> string, matches: (string, string) -> bool)
    requires Signup(s, q, hash).status == Created
    requires matches(q.password, hash(q.password))
    ensures var after := Signup(s, q, hash).store;
      Login(after, q.email, q.password, matches) == LoginReply(Ok, "", Some(after.users[|s.users|].id))
  {
    var after := Signup(s, q, hash).store;
    var i := FindUserByEmail(after.users, q.email);
    assert after.users[|s.users|].email == q.email;
    assert i.Some?;
  }
}
