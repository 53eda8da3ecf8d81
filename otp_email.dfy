/** app/utils/otp_email.py: one-time-password challenges. Sending stores a TOTP
    secret under `otp-secret:{email}` for five minutes and mails the current
    code; verifying fails when no secret is stored, accepts a code within one
    30-second step of the current one and then deletes the key, so a code is
    good once. The HOTP value of RFC 4226 is a function parameter: the model
    relies only on the time-step arithmetic of RFC 6238 around it. */
module OtpEmail {
  import opened Common
  import opened Json
  import opened AppModels
  import opened KeyValue
  import SessionManager
  import AuthUtils

  /** Lifetime of a stored secret, in seconds. */
  const OtpTtl := 300

  /** The TOTP time step X of RFC 6238 section 4.1, in seconds. */
  const TimeStep := 30

  const OtpPrefix := "otp-secret:"

  /** The store key of an email's challenge. */
  function OtpKey(email: string): (k: string)
    ensures |k| == |OtpPrefix| + |email|
    ensures k[..|OtpPrefix|] == OtpPrefix && k[|OtpPrefix|..] == email
  {
    OtpPrefix + email
  }

  lemma OtpKeyInjective(a: string, b: string)
    ensures OtpKey(a) == OtpKey(b) ==> a == b
  {
  }

  /** An HOTP function: the code for a key (the secret as stored text) and a
      counter. */
  type Hotp = (Text, int) -> string

  /** `TOTP(secret).now()` at time `now`: the code of the current step. pyotp
      computes the counter as `int(time / 30)`, which truncates; Dafny's
      `now / 30` floors. The two agree for every time at or after the Unix
      epoch, which is all a real clock gives; for earlier times the model's
      counter would be one lower. */
  function TotpNow(hotp: Hotp, secret: Text, now: int): string {
    hotp(secret, now / TimeStep)
  }

  /** `TOTP(secret).verify(otp, valid_window=1)` at time `now`: the code of
      the previous, the current or the next step matches (RFC 6238 section
      5.2). */
  predicate TotpVerify(hotp: Hotp, secret: Text, otp: string, now: int) {
    otp == hotp(secret, now / TimeStep - 1)
    || otp == hotp(secret, now / TimeStep)
    || otp == hotp(secret, now / TimeStep + 1)
  }

  /** Codes of distinct steps differ. */
  ghost predicate DistinctSteps(hotp: Hotp, secret: Text) {
    forall a: int, b: int :: hotp(secret, a) == hotp(secret, b) ==> a == b
  }

  /** A code read at `t0` is accepted at `t` exactly when the two steps are at
      most one apart; in particular throughout the 30 seconds after `t0`, and
      never 60 seconds or more away from it. */
  lemma {:induction false} TotpWindow(hotp: Hotp, secret: Text, t0: int, t: int)
    ensures -1 <= t / TimeStep - t0 / TimeStep <= 1 ==> TotpVerify(hotp, secret, TotpNow(hotp, secret, t0), t)
    ensures DistinctSteps(hotp, secret) && TotpVerify(hotp, secret, TotpNow(hotp, secret, t0), t)
            ==> -1 <= t / TimeStep - t0 / TimeStep <= 1
    ensures t0 <= t < t0 + TimeStep ==> TotpVerify(hotp, secret, TotpNow(hotp, secret, t0), t)
    ensures DistinctSteps(hotp, secret) && (t0 + 2 * TimeStep <= t || t + 2 * TimeStep <= t0)
            ==> !TotpVerify(hotp, secret, TotpNow(hotp, secret, t0), t)
  {
    var c0 := t0 / TimeStep;
    var c := t / TimeStep;
    if -1 <= c - c0 <= 1 {
      assert c - 1 == c0 || c == c0 || c + 1 == c0;
    }
    if DistinctSteps(hotp, secret) && TotpVerify(hotp, secret, TotpNow(hotp, secret, t0), t) {
      assert hotp(secret, c0) == hotp(secret, c - 1) || hotp(secret, c0) == hotp(secret, c)
             || hotp(secret, c0) == hotp(secret, c + 1);
    }
    if t0 <= t < t0 + TimeStep {
      assert c0 * TimeStep <= t0 < c0 * TimeStep + TimeStep;
      assert c * TimeStep <= t < c * TimeStep + TimeStep;
      assert c0 <= c <= c0 + 1;
    }
    if t0 + 2 * TimeStep <= t {
      assert c0 * TimeStep <= t0 < c0 * TimeStep + TimeStep;
      assert c * TimeStep <= t < c * TimeStep + TimeStep;
      assert c >= c0 + 2;
    }
    if t + 2 * TimeStep <= t0 {
      assert c0 * TimeStep <= t0 < c0 * TimeStep + TimeStep;
      assert c * TimeStep <= t < c * TimeStep + TimeStep;
      assert c0 >= c + 2;
    }
  }

  // ---------------------------------------------------------------------------
  // Sending
  // ---------------------------------------------------------------------------

  /** `send_otp(data)` at time `now`: `freshSecret` stands for
      `pyotp.random_base32()`. The secret is stored for five minutes and the
      current code is what the mail carries. As written, the store call on
      line 83 is not awaited; the model follows the evident intent. */
  method SendOtp(store: Store, hotp: Hotp, email: string, freshSecret: string, now: int)
    returns (mailedCode: string, detail: string)
    modifies store
    ensures store.entries == Put(old(store.entries), OtpKey(email), RawText(freshSecret), OtpTtl, now)
    ensures mailedCode == TotpNow(hotp, RawText(freshSecret), now)
    ensures detail == "OTP sent successfully"
  {
    mailedCode := TotpNow(hotp, RawText(freshSecret), now);
    store.Set(OtpKey(email), RawText(freshSecret), OtpTtl, now);
    detail := "OTP sent successfully";
  }

  /** `send_otp_mail(data)` at time `now`: the module-level secret, drawn once
      when the module loads, is stored for five minutes under the email's key.
      `mailSent` says whether the SMTP exchange succeeded; when it did not, the
      secret stays stored and the call fails with 500. */
  method SendOtpMail(store: Store, hotp: Hotp, moduleSecret: string, email: string, now: int, mailSent: bool)
    returns (mailedCode: string, r: Outcome<()>)
    modifies store
    ensures store.entries == Put(old(store.entries), OtpKey(email), RawText(moduleSecret), OtpTtl, now)
    ensures mailedCode == TotpNow(hotp, RawText(moduleSecret), now)
    ensures r == if mailSent then Ok(()) else Err(500, "Failed to send OTP email")
  {
    mailedCode := TotpNow(hotp, RawText(moduleSecret), now);
    store.Set(OtpKey(email), RawText(moduleSecret), OtpTtl, now);
    r := if mailSent then Ok(()) else Err(500, "Failed to send OTP email");
  }

  /** Every address challenged through `send_otp_mail` holds the same secret. */
  lemma SendOtpMailSharesSecret(entries: map<string, Entry>, moduleSecret: string,
                                a: string, b: string, now: int, later: int)
    requires a != b && now <= later < now + OtpTtl
    ensures
      var afterA := Put(entries, OtpKey(a), RawText(moduleSecret), OtpTtl, now);
      var afterB := Put(afterA, OtpKey(b), RawText(moduleSecret), OtpTtl, now);
      Lookup(afterB, OtpKey(a), later) == Lookup(afterB, OtpKey(b), later) == Some(RawText(moduleSecret))
  {
    OtpKeyInjective(a, b);
  }

  // ---------------------------------------------------------------------------
  // Verifying
  // ---------------------------------------------------------------------------

  /** The response and the new store contents of a verification, given
      whether the code matched: 400 "OTP expired or not found" with nothing
      changed when no live, non-empty secret is stored; on a match the key is
      deleted and the message is "OTP verified successfully"; on a mismatch
      400 "Invalid OTP" with nothing changed. */
  function VerifyStep(entries: map<string, Entry>, email: string, now: int, matched: bool)
    : (r: (Outcome<Message>, map<string, Entry>))
    ensures Lookup(entries, OtpKey(email), now).None? ==> r == (Err(400, "OTP expired or not found"), entries)
    ensures Lookup(entries, OtpKey(email), now) == Some(RawText("")) ==> r == (Err(400, "OTP expired or not found"), entries)
    ensures r.0.Ok? ==> r.0.value == NewMessage("OTP verified successfully") && r.1 == Remove(entries, OtpKey(email))
    ensures r.0.Err? ==> r.0.code == 400 && r.1 == entries
    ensures r.0.Ok? <==> Lookup(entries, OtpKey(email), now).Some?
                         && TextTruthy(Lookup(entries, OtpKey(email), now).value) && matched
  {
    match Lookup(entries, OtpKey(email), now)
    case None => (Err(400, "OTP expired or not found"), entries)
    case Some(stored) =>
      if !TextTruthy(stored) then (Err(400, "OTP expired or not found"), entries)
      else if matched then (Ok(NewMessage("OTP verified successfully")), Remove(entries, OtpKey(email)))
      else (Err(400, "Invalid OTP"), entries)
  }

  /** The secret the corrected verification checks against: the stored one. */
  function StoredSecret(entries: map<string, Entry>, email: string, now: int): Text {
    match Lookup(entries, OtpKey(email), now)
    case None => RawText("")
    case Some(stored) => stored
  }

  /** `verify_otp(data)` AS WRITTEN: the code is checked against the
      module-level secret (line 48), whatever secret is stored for the email.
      (Lines 42 and 53 also lack `await`; the model follows the evident intent
      there, an awaited read and delete.) */
  function VerifyOtpAsWritten(entries: map<string, Entry>, hotp: Hotp, moduleSecret: string,
                              email: string, otp: string, now: int)
    : (r: (Outcome<Message>, map<string, Entry>))
    ensures r == VerifyStep(entries, email, now, TotpVerify(hotp, RawText(moduleSecret), otp, now))
  {
    VerifyStep(entries, email, now, TotpVerify(hotp, RawText(moduleSecret), otp, now))
  }

  /** `verify_otp(data)` as evidently intended: the code is checked against
      the secret stored for the email. */
  function VerifyOtp(entries: map<string, Entry>, hotp: Hotp, email: string, otp: string, now: int)
    : (r: (Outcome<Message>, map<string, Entry>))
    ensures r == VerifyStep(entries, email, now, TotpVerify(hotp, StoredSecret(entries, email, now), otp, now))
  {
    VerifyStep(entries, email, now, TotpVerify(hotp, StoredSecret(entries, email, now), otp, now))
  }

  /** The imperative form: the store is read, and on a match its key deleted. */
  method VerifyOtpOnStore(store: Store, hotp: Hotp, email: string, otp: string, now: int)
    returns (r: Outcome<Message>)
    modifies store
    ensures (r, store.entries) == VerifyOtp(old(store.entries), hotp, email, otp, now)
  {
    var stored := store.Get(OtpKey(email), now);
    if stored.None? || !TextTruthy(stored.value) {
      r := Err(400, "OTP expired or not found");
    } else if TotpVerify(hotp, stored.value, otp, now) {
      store.Delete(OtpKey(email));
      r := Ok(NewMessage("OTP verified successfully"));
    } else {
      r := Err(400, "Invalid OTP");
    }
  }

  /** A code is good once: after a successful verification every further
      verification of that email, with any code at any time, finds nothing. */
  lemma {:induction false} OtpSingleUse(entries: map<string, Entry>, hotp: Hotp, email: string,
                                        otp: string, now: int, otp2: string, later: int)
    requires VerifyOtp(entries, hotp, email, otp, now).0.Ok?
    ensures VerifyOtp(VerifyOtp(entries, hotp, email, otp, now).1, hotp, email, otp2, later).0
            == Err(400, "OTP expired or not found")
  {
    LookupAfterRemove(entries, OtpKey(email), later, OtpKey(email));
  }

  /** A wrong code leaves the challenge in place: the right code still
      passes afterwards. */
  lemma {:induction false} OtpMismatchKeepsChallenge(entries: map<string, Entry>, hotp: Hotp, email: string,
                                                     wrong: string, right: string, now: int)
    requires VerifyOtp(entries, hotp, email, wrong, now).0 == Err(400, "Invalid OTP")
    requires TotpVerify(hotp, StoredSecret(entries, email, now), right, now)
    ensures VerifyOtp(entries, hotp, email, wrong, now).1 == entries
    ensures VerifyOtp(VerifyOtp(entries, hotp, email, wrong, now).1, hotp, email, right, now).0.Ok?
  {
  }

  /** With the corrected verification, the code mailed by `send_otp` is
      accepted for the 30 seconds after sending. */
  lemma {:induction false} SentCodeVerifies(entries: map<string, Entry>, hotp: Hotp, email: string,
                                            freshSecret: string, now: int, later: int)
    requires freshSecret != "" && now <= later < now + TimeStep
    ensures
      var sent := Put(entries, OtpKey(email), RawText(freshSecret), OtpTtl, now);
      VerifyOtp(sent, hotp, email, TotpNow(hotp, RawText(freshSecret), now), later)
      == (Ok(NewMessage("OTP verified successfully")), Remove(sent, OtpKey(email)))
  {
    var sent := Put(entries, OtpKey(email), RawText(freshSecret), OtpTtl, now);
    LookupAfterPut(entries, OtpKey(email), RawText(freshSecret), OtpTtl, now, later, OtpKey(email));
    assert StoredSecret(sent, email, later) == RawText(freshSecret);
    TotpWindow(hotp, RawText(freshSecret), now, later);
  }

  /** The finding at line 48: a code mailed by `send_otp` is rejected by the
      as-written verification whenever it is not also a code of the
      module-level secret at that time. */
  lemma {:induction false} AsWrittenRejectsSentCode(entries: map<string, Entry>, hotp: Hotp, email: string,
                                                    freshSecret: string, moduleSecret: string, now: int, later: int)
    requires freshSecret != "" && now <= later < now + OtpTtl
    requires !TotpVerify(hotp, RawText(moduleSecret), TotpNow(hotp, RawText(freshSecret), now), later)
    ensures
      var sent := Put(entries, OtpKey(email), RawText(freshSecret), OtpTtl, now);
      VerifyOtpAsWritten(sent, hotp, moduleSecret, email, TotpNow(hotp, RawText(freshSecret), now), later)
      == (Err(400, "Invalid OTP"), sent)
  {
    LookupAfterPut(entries, OtpKey(email), RawText(freshSecret), OtpTtl, now, later, OtpKey(email));
  }

  /** A concrete instance: secrets "A" and "B", codes that name their secret. */
  lemma AsWrittenRejectsSentCodeExample()
    ensures
      var hotp: Hotp := (k: Text, c: int) => if k == RawText("A") then "111111" else "222222";
      var sent := Put(map[], OtpKey("a@example.com"), RawText("A"), OtpTtl, 0);
      && VerifyOtpAsWritten(sent, hotp, "B", "a@example.com", TotpNow(hotp, RawText("A"), 0), 0)
         == (Err(400, "Invalid OTP"), sent)
      && VerifyOtp(sent, hotp, "a@example.com", TotpNow(hotp, RawText("A"), 0), 0).0.Ok?
  {
  }

  /** The three key families of the store never collide: an OTP challenge,
      a session token and a user's session set each have their own prefix. */
  lemma KeyFamiliesDisjoint(email: string, token: string, userId: string)
    ensures OtpKey(email) != SessionManager.SessionKey(token)
    ensures OtpKey(email) != AuthUtils.GetSessionKey(userId)
    ensures SessionManager.SessionKey(token) != AuthUtils.GetSessionKey(userId)
  {
    assert OtpKey(email)[0] == 'o';
    assert SessionManager.SessionKey(token)[0] == 's' && SessionManager.SessionKey(token)[7] == ':';
    assert AuthUtils.GetSessionKey(userId)[0] == 's' && AuthUtils.GetSessionKey(userId)[7] == 's';
  }
}
