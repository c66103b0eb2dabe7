/** One-time codes: sign-up verification and password reset, per account. */
module Accounts {
  import opened Wrappers
  import opened Entities

  const OTP_LIFETIME: int := 10 * 60 * 1000

  datatype Account = Account(
    password: string,
    isActive: bool,
    isEmailVerified: bool,
    otpCode: Option<string>,
    otpExpiresAt: Option<Time>,
    resetPasswordOtp: Option<string>,
    resetPasswordOtpExpiresAt: Option<Time>)

  type Table = map<string, Account>

  /** A request, with the clock and the generated code. Passwords are hashes. */
  datatype Event =
    | SignUp(email: string, password: string, code: string, now: Time)
    | VerifyEmail(email: string, code: string, now: Time)
    | ForgotPassword(email: string, code: string, now: Time)
    | ResetPassword(email: string, code: string, password: string, now: Time)

  /** A generated code is never empty. */
  predicate CodeOk(e: Event) {
    (e.SignUp? || e.ForgotPassword?) ==> e.code != ""
  }

  datatype Refusal = EmailTaken | UserNotFound | AlreadyVerified | WrongCode | CodeExpired | CodeInvalid

  // ---------- one request ----------

  /** The stored expiry of a code: ten minutes after it was issued, as its column keeps it. */
  function ExpiryFrom(now: Time): Time {
    WholeSecond(now + OTP_LIFETIME)
  }

  function Verdict(t: Table, e: Event): Option<Refusal> {
    match e
    case SignUp(email, _, _, _) => if email in t then Some(EmailTaken) else None
    case VerifyEmail(email, code, now) =>
      if email !in t then Some(UserNotFound)
      else if t[email].isEmailVerified then Some(AlreadyVerified)
      else if t[email].otpCode != Some(code) then Some(WrongCode)
      else if t[email].otpExpiresAt.Some? && t[email].otpExpiresAt.value < now then Some(CodeExpired)
      else None
    case ForgotPassword(email, _, _) => None
    case ResetPassword(email, code, _, now) =>
      if email !in t then Some(CodeInvalid)
      else
        var a := t[email];
        if a.resetPasswordOtp.None? || a.resetPasswordOtp.value == "" || a.resetPasswordOtp != Some(code)
        then Some(CodeInvalid)
        else if a.resetPasswordOtpExpiresAt.None? || a.resetPasswordOtpExpiresAt.value < now then Some(CodeExpired)
        else None
  }

  function Next(t: Table, e: Event): Table {
    if Verdict(t, e).Some? then t else
    match e
    case SignUp(email, password, code, now) =>
      t[email := Account(password, false, false, Some(code), Some(ExpiryFrom(now)), None, None)]
    case VerifyEmail(email, _, _) =>
      t[email := t[email].(isEmailVerified := true, isActive := true, otpCode := None, otpExpiresAt := None)]
    case ForgotPassword(email, code, now) =>
      if email !in t then t
      else t[email := t[email].(resetPasswordOtp := Some(code), resetPasswordOtpExpiresAt := Some(ExpiryFrom(now)))]
    case ResetPassword(email, _, password, _) =>
      t[email := t[email].(password := password, resetPasswordOtp := None, resetPasswordOtpExpiresAt := None)]
  }

  class AuthService {
    var accounts: Table

    constructor ()
      ensures accounts == map[]
    {
      accounts := map[];
    }

    /** Creates the account as the user module does, active, and then holds it back until it is verified. */
    method Register(email: string, password: string, code: string, now: Time) returns (refused: Option<Refusal>)
      modifies this
      ensures refused == Verdict(old(accounts), SignUp(email, password, code, now))
      ensures accounts == Next(old(accounts), SignUp(email, password, code, now))
    {
      if email in accounts {
        return Some(EmailTaken);
      }
      accounts := accounts[email := Account(password, true, false, None, None, None, None)];
      var otpExpiresAt := now + OTP_LIFETIME;
      var user := accounts[email].(otpCode := Some(code), otpExpiresAt := Some(WholeSecond(otpExpiresAt)));
      accounts := accounts[email := user.(isEmailVerified := false, isActive := false)];
      refused := None;
    }

    method VerifyEmailCode(email: string, code: string, now: Time) returns (refused: Option<Refusal>)
      modifies this
      ensures refused == Verdict(old(accounts), VerifyEmail(email, code, now))
      ensures accounts == Next(old(accounts), VerifyEmail(email, code, now))
    {
      if email !in accounts {
        return Some(UserNotFound);
      }
      var user := accounts[email];
      if user.isEmailVerified {
        return Some(AlreadyVerified);
      }
      if user.otpCode != Some(code) {
        return Some(WrongCode);
      }
      if user.otpExpiresAt.Some? && user.otpExpiresAt.value < now {
        return Some(CodeExpired);
      }
      user := user.(isEmailVerified := true, isActive := true, otpCode := None, otpExpiresAt := None);
      accounts := accounts[email := user];
      refused := None;
    }

    /** Answers the same whether or not the email is known. */
    method ForgotPasswordCode(email: string, code: string, now: Time)
      modifies this
      ensures accounts == Next(old(accounts), ForgotPassword(email, code, now))
    {
      if email !in accounts {
        return;
      }
      var expires := now;
      expires := expires + OTP_LIFETIME;
      var user := accounts[email].(resetPasswordOtp := Some(code));
      user := user.(resetPasswordOtpExpiresAt := Some(WholeSecond(expires)));
      accounts := accounts[email := user];
    }

    method ResetPasswordWith(email: string, code: string, password: string, now: Time)
      returns (refused: Option<Refusal>)
      modifies this
      ensures refused == Verdict(old(accounts), ResetPassword(email, code, password, now))
      ensures accounts == Next(old(accounts), ResetPassword(email, code, password, now))
    {
      if email !in accounts {
        return Some(CodeInvalid);
      }
      var user := accounts[email];
      if user.resetPasswordOtp.None? || user.resetPasswordOtp.value == "" || user.resetPasswordOtp != Some(code) {
        return Some(CodeInvalid);
      }
      if user.resetPasswordOtpExpiresAt.None? || user.resetPasswordOtpExpiresAt.value < now {
        return Some(CodeExpired);
      }
      user := user.(password := password, resetPasswordOtp := None, resetPasswordOtpExpiresAt := None);
      accounts := accounts[email := user];
      refused := None;
    }
  }

  // ---------- what the history of requests says ----------

  function Run(events: seq<Event>): Table {
    if events == [] then map[] else Next(Run(events[..|events| - 1]), events[|events| - 1])
  }

  predicate CodesOk(events: seq<Event>) {
    forall i | 0 <= i < |events| :: CodeOk(events[i])
  }

  function Before(events: seq<Event>): seq<Event>
    requires events != []
  {
    events[..|events| - 1]
  }

  function Last(events: seq<Event>): Event
    requires events != []
  {
    events[|events| - 1]
  }

  /** The sign-up that created the account, if there was one: the first with this email. */
  function SignedUp(events: seq<Event>, email: string): (r: Option<Event>)
    ensures r.Some? ==> r.value.SignUp?
  {
    if events == [] then None
    else if SignedUp(Before(events), email).Some? then SignedUp(Before(events), email)
    else if Last(events).SignUp? && Last(events).email == email then Some(Last(events))
    else None
  }

  /** The code was issued for the event's use, and its ten minutes, to the second, are not over. */
  predicate Matches(issue: Option<Event>, e: Event)
    requires issue.Some? ==> issue.value.SignUp? || issue.value.ForgotPassword?
    requires e.VerifyEmail? || e.ResetPassword?
  {
    issue.Some? && e.code == issue.value.code && e.now <= ExpiryFrom(issue.value.now)
  }

  /** The reset code that is out: the last one issued to the account, unless it has been used since. */
  function OpenIssue(events: seq<Event>, email: string): (r: Option<Event>)
    ensures r.Some? ==> r.value.ForgotPassword?
  {
    if events == [] then None else
    var before, e := Before(events), Last(events);
    if e.email != email then OpenIssue(before, email)
    else if e.ForgotPassword? && SignedUp(before, email).Some? then Some(e)
    else if e.ResetPassword? && Matches(OpenIssue(before, email), e) then None
    else OpenIssue(before, email)
  }

  /** The password that the account should have: that of its last reset with the open code in time, or of
      its sign-up if there is none. */
  function PasswordOf(events: seq<Event>, email: string): Option<string> {
    if events == [] then None else
    var before, e := Before(events), Last(events);
    if e.email != email then PasswordOf(before, email)
    else if e.SignUp? && SignedUp(before, email).None? then Some(e.password)
    else if e.ResetPassword? && Matches(OpenIssue(before, email), e) then Some(e.password)
    else PasswordOf(before, email)
  }

  /** Some verification presented the code of the sign-up in time. */
  predicate Confirmed(events: seq<Event>, email: string) {
    events != [] &&
    (Confirmed(Before(events), email)
     || (Last(events).VerifyEmail? && Last(events).email == email
         && Matches(SignedUp(Before(events), email), Last(events))))
  }

  /** The table says about an account exactly what the history of requests says. */
  predicate Agrees(t: Table, events: seq<Event>, email: string) {
    && (email in t <==> SignedUp(events, email).Some?)
    && (email !in t ==> OpenIssue(events, email).None? && !Confirmed(events, email))
    && (email in t ==>
          var a, open, signUp := t[email], OpenIssue(events, email), SignedUp(events, email).value;
          && PasswordOf(events, email) == Some(a.password)
          && a.isActive == a.isEmailVerified == Confirmed(events, email)
          && a.otpCode == (if Confirmed(events, email) then None else Some(signUp.code))
          && a.otpExpiresAt == (if Confirmed(events, email) then None else Some(ExpiryFrom(signUp.now)))
          && (open.Some? ==> open.value.code != "" && a.resetPasswordOtp == Some(open.value.code)
                             && a.resetPasswordOtpExpiresAt == Some(ExpiryFrom(open.value.now)))
          && (open.None? ==> a.resetPasswordOtp.None? && a.resetPasswordOtpExpiresAt.None?))
  }

  lemma {:induction false} TableAgrees(events: seq<Event>, email: string)
    requires CodesOk(events)
    ensures Agrees(Run(events), events, email)
  {
    if events != [] {
      TableAgrees(Before(events), email);
      assert CodeOk(Last(events));
    }
  }

  /** A reset succeeds exactly when it presents the last code issued to the account, not used since, no
      later than ten minutes after it was issued. */
  lemma ResetAcceptedIff(events: seq<Event>, e: Event)
    requires CodesOk(events) && e.ResetPassword?
    ensures Verdict(Run(events), e).None? <==>
      var issue := OpenIssue(events, e.email);
      issue.Some? && e.code == issue.value.code && e.now <= (issue.value.now + 600000 + 500) / 1000 * 1000
  {
    TableAgrees(events, e.email);
  }

  /** A verification succeeds exactly when it is the account's first with the sign-up code in time. */
  lemma VerifyAcceptedIff(events: seq<Event>, e: Event)
    requires CodesOk(events) && e.VerifyEmail?
    ensures Verdict(Run(events), e).None? <==>
      var signUp := SignedUp(events, e.email);
      && !Confirmed(events, e.email)
      && signUp.Some? && e.code == signUp.value.code && e.now <= (signUp.value.now + 600000 + 500) / 1000 * 1000
  {
    TableAgrees(events, e.email);
  }

  /** Every refusal with its reason, in terms of the stored account. */
  lemma RefusalsOf(t: Table, email: string, code: string, password: string, now: Time)
    ensures Verdict(t, SignUp(email, password, code, now)) == if email in t then Some(EmailTaken) else None
    ensures email !in t ==>
      && Verdict(t, VerifyEmail(email, code, now)) == Some(UserNotFound)
      && Verdict(t, ResetPassword(email, code, password, now)) == Some(CodeInvalid)
    ensures email in t ==>
      var a, v, r := t[email], Verdict(t, VerifyEmail(email, code, now)),
                     Verdict(t, ResetPassword(email, code, password, now));
      && (a.isEmailVerified ==> v == Some(AlreadyVerified))
      && (!a.isEmailVerified && a.otpCode != Some(code) ==> v == Some(WrongCode))
      && (!a.isEmailVerified && a.otpCode == Some(code) && a.otpExpiresAt.Some? && a.otpExpiresAt.value < now ==>
            v == Some(CodeExpired))
      && (code == "" || a.resetPasswordOtp != Some(code) ==> r == Some(CodeInvalid))
      && var over := a.resetPasswordOtpExpiresAt.None? || a.resetPasswordOtpExpiresAt.value < now;
         (code != "" && a.resetPasswordOtp == Some(code) && over ==> r == Some(CodeExpired))
  {
  }

  /** A request touches no account but its own, and a refused one none at all. */
  lemma OthersUntouched(t: Table, e: Event, email: string)
    requires email != e.email || Verdict(t, e).Some?
    ensures email in Next(t, e) <==> email in t
    ensures email in t ==> Next(t, e)[email] == t[email]
  {
  }

  /** A self-registered account is active exactly when it is verified, which is when its code was confirmed. */
  lemma ActiveIffVerified(events: seq<Event>, email: string)
    requires CodesOk(events) && email in Run(events)
    ensures Run(events)[email].isActive <==> Run(events)[email].isEmailVerified
    ensures Run(events)[email].isEmailVerified <==> Confirmed(events, email)
  {
    TableAgrees(events, email);
  }

  // ---------- counting ----------

  function Count(b: bool): nat {
    if b then 1 else 0
  }

  function Resets(events: seq<Event>, email: string): nat {
    if events == [] then 0
    else Resets(Before(events), email)
         + Count(Last(events).ResetPassword? && Last(events).email == email
                 && Verdict(Run(Before(events)), Last(events)).None?)
  }

  function Issues(events: seq<Event>, email: string): nat {
    if events == [] then 0
    else Issues(Before(events), email)
         + Count(Last(events).ForgotPassword? && Last(events).email == email && email in Run(Before(events)))
  }

  function Verifications(events: seq<Event>, email: string): nat {
    if events == [] then 0
    else Verifications(Before(events), email)
         + Count(Last(events).VerifyEmail? && Last(events).email == email
                 && Verdict(Run(Before(events)), Last(events)).None?)
  }

  /** Every reset uses up an issued code: successful resets, with the code still out, never exceed issues. */
  lemma {:induction false} ResetsNeverExceedIssues(events: seq<Event>, email: string)
    requires CodesOk(events)
    ensures Resets(events, email) + Count(OpenIssue(events, email).Some?) <= Issues(events, email)
  {
    if events != [] {
      ResetsNeverExceedIssues(Before(events), email);
      TableAgrees(Before(events), email);
    }
  }

  /** An account verifies at most once, and has done so exactly when it is active. */
  lemma {:induction false} VerifiesAtMostOnce(events: seq<Event>, email: string)
    requires CodesOk(events)
    ensures Verifications(events, email) == Count(Confirmed(events, email))
    ensures Verifications(events, email) <= 1
  {
    if events != [] {
      VerifiesAtMostOnce(Before(events), email);
      TableAgrees(Before(events), email);
    }
  }

  /** A reset happened as the `n`-th event. */
  predicate ResetAt(events: seq<Event>, email: string, n: nat)
    requires n < |events|
  {
    events[n].ResetPassword? && events[n].email == email && Verdict(Run(events[..n]), events[n]).None?
  }

  predicate IssuedAt(events: seq<Event>, email: string, n: nat)
    requires n < |events|
  {
    events[n].ForgotPassword? && events[n].email == email && email in Run(events[..n])
  }

  predicate SignedUpAt(events: seq<Event>, email: string, n: nat)
    requires n < |events|
  {
    events[n].SignUp? && events[n].email == email && email !in Run(events[..n])
  }

  /** The `n`-th event set the password that the account has after all of them. */
  ghost predicate SetsPassword(events: seq<Event>, email: string, n: nat)
    requires n < |events|
  {
    && (SignedUpAt(events, email, n) || ResetAt(events, email, n))
    && email in Run(events) && Run(events)[email].password == events[n].password
    && forall m | n < m < |events| :: !ResetAt(events, email, m)
  }

  /** After any events, an account has the password of its last successful reset, or of its sign-up if it was
      never reset. */
  lemma {:induction false} PasswordIsOfLastReset(events: seq<Event>, email: string)
    requires CodesOk(events) && email in Run(events)
    ensures exists n :: 0 <= n < |events| && SetsPassword(events, email, n)
  {
    var before, last := Before(events), |events| - 1;
    TableAgrees(before, email);
    TableAgrees(events, email);
    assert events[..last] == before;
    if SignedUpAt(events, email, last) || ResetAt(events, email, last) {
      assert SetsPassword(events, email, last);
    } else {
      PasswordIsOfLastReset(before, email);
      var n :| 0 <= n < last && SetsPassword(before, email, n);
      StillSets(events, email, n);
    }
  }

  lemma {:induction false} SameBefore(events: seq<Event>, email: string, m: nat)
    requires m < |events| - 1
    ensures ResetAt(Before(events), email, m) <==> ResetAt(events, email, m)
    ensures SignedUpAt(Before(events), email, m) <==> SignedUpAt(events, email, m)
    ensures Before(events)[m] == events[m]
  {
    assert Before(events)[..m] == events[..m];
  }

  /** Any other event leaves the password to the one that set it. */
  lemma {:induction false} StillSets(events: seq<Event>, email: string, n: nat)
    requires n < |events| - 1 && SetsPassword(Before(events), email, n)
    requires email in Run(events) && Run(events)[email].password == Run(Before(events))[email].password
    requires !ResetAt(events, email, |events| - 1)
    ensures SetsPassword(events, email, n)
  {
    SameBefore(events, email, n);
    forall m | n < m < |events| ensures !ResetAt(events, email, m) {
      if m < |events| - 1 { SameBefore(events, email, m); }
    }
  }

  /** If a code is out after some events but was not out after the first `n`, it was issued in between. */
  lemma {:induction false} OpenIssueWasIssued(events: seq<Event>, email: string, n: nat, m: nat)
    requires CodesOk(events) && n <= m <= |events|
    requires OpenIssue(events[..n], email).None? && OpenIssue(events[..m], email).Some?
    ensures exists k :: n <= k < m && IssuedAt(events, email, k) && OpenIssue(events[..m], email) == Some(events[k])
  {
    assert n < m;
    assert Before(events[..m]) == events[..m - 1] && Last(events[..m]) == events[m - 1];
    TableAgrees(events[..m - 1], email);
    if OpenIssue(events[..m], email) != OpenIssue(events[..m - 1], email) {
      assert IssuedAt(events, email, m - 1);
    } else {
      OpenIssueWasIssued(events, email, n, m - 1);
    }
  }

  lemma {:induction false} UpTo(events: seq<Event>, i: nat)
    requires i < |events|
    ensures Before(events[..i + 1]) == events[..i] && Last(events[..i + 1]) == events[i]
  {
    assert events[..i + 1][..i] == events[..i];
  }

  lemma {:induction false} ResetClosesIssue(events: seq<Event>, email: string, i: nat)
    requires i < |events| && CodesOk(events[..i]) && ResetAt(events, email, i)
    ensures OpenIssue(events[..i + 1], email).None?
  {
    ResetAcceptedIff(events[..i], events[i]);
    UpTo(events, i);
  }

  /** Between two successful resets of an account there is a new issue, and the second uses its code. */
  lemma ResetsNeedAnIssueBetween(events: seq<Event>, email: string, i: nat, j: nat)
    requires CodesOk(events) && i < j < |events|
    requires ResetAt(events, email, i) && ResetAt(events, email, j)
    ensures exists k :: i < k < j && IssuedAt(events, email, k) && events[j].code == events[k].code
                        && events[j].now <= (events[k].now + 600000 + 500) / 1000 * 1000
  {
    ResetAcceptedIff(events[..j], events[j]);
    ResetClosesIssue(events, email, i);
    OpenIssueWasIssued(events, email, i + 1, j);
  }
}
