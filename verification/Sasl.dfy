/** The SASL exchange of curl/lib/curl_sasl.c: choice of mechanism, the steps of each, and the fall back to another. */
module Sasl {
  import opened CString

  datatype Mech = LOGIN | PLAIN | CRAM_MD5 | DIGEST_MD5 | GSSAPI | EXTERNAL | NTLM | XOAUTH2 | OAUTHBEARER | SCRAM_SHA_1 | SCRAM_SHA_256

  datatype State =
    | Stop
    | Plain
    | Login
    | LoginPasswd
    | External
    | CramMd5
    | DigestMd5
    | DigestMd5Resp
    | Ntlm
    | NtlmType2Msg
    | Gssapi
    | GssapiToken
    | GssapiNoData
    | Oauth2
    | Oauth2Resp
    | Gsasl
    | Cancel
    | Final

  datatype Progress = Idle | InProgress | Done

  datatype Code = OK | BadContentEncoding | LoginDenied | OtherError

  /** `struct SASL`, without the names it only prints. */
  datatype Sasl = Sasl(state: State, authmechs: set<Mech>, prefmech: set<Mech>, authused: Option<Mech>, mutualAuth: bool)

  /** The protocol's codes and whether its messages are base64. */
  datatype Proto = Proto(contcode: int, finalcode: int, base64: bool)

  /** What a start depends on: the credentials, what the build supports for them, whether an initial response is asked
      for and fits, and how the calls turn out. */
  datatype Start = Start(
    hasUser: bool, hasPassword: bool, hasBearer: bool, supported: set<Mech>,
    initial: bool, tooLong: bool, message: Code, build: Code, send: Code)

  /** How the calls of a continuation turn out; `token` says whether the GSASL token has bytes. */
  datatype Step = Step(message: Code, token: bool, build: Code, send: Code, cancel: Code)

  // ---------- the choice of mechanism ----------

  /** Whether the branch for `m` can be taken once its bit is enabled. */
  predicate Usable(m: Mech, e: Start)
  {
    if m == EXTERNAL then !e.hasPassword
    else e.hasUser &&
         match m
         case GSSAPI => GSSAPI in e.supported
         case SCRAM_SHA_256 => SCRAM_SHA_256 in e.supported
         case SCRAM_SHA_1 => SCRAM_SHA_1 in e.supported
         case DIGEST_MD5 => DIGEST_MD5 in e.supported
         case NTLM => NTLM in e.supported
         case OAUTHBEARER => e.hasBearer
         case XOAUTH2 => e.hasBearer
         case _ => true
  }

  /** The place of a mechanism in the decreasing order of security. */
  function Place(m: Mech): nat
  {
    match m
    case EXTERNAL => 0
    case GSSAPI => 1
    case SCRAM_SHA_256 => 2
    case SCRAM_SHA_1 => 3
    case DIGEST_MD5 => 4
    case CRAM_MD5 => 5
    case NTLM => 6
    case OAUTHBEARER => 7
    case XOAUTH2 => 8
    case PLAIN => 9
    case LOGIN => 10
  }

  /** The branches of `Curl_sasl_start`. */
  function Choose(enabled: set<Mech>, e: Start): Option<Mech>
  {
    if EXTERNAL in enabled && !e.hasPassword then Some(EXTERNAL)
    else if !e.hasUser then None
    else if GSSAPI in enabled && GSSAPI in e.supported then Some(GSSAPI)
    else if SCRAM_SHA_256 in enabled && SCRAM_SHA_256 in e.supported then Some(SCRAM_SHA_256)
    else if SCRAM_SHA_1 in enabled && SCRAM_SHA_1 in e.supported then Some(SCRAM_SHA_1)
    else if DIGEST_MD5 in enabled && DIGEST_MD5 in e.supported then Some(DIGEST_MD5)
    else if CRAM_MD5 in enabled then Some(CRAM_MD5)
    else if NTLM in enabled && NTLM in e.supported then Some(NTLM)
    else if OAUTHBEARER in enabled && e.hasBearer then Some(OAUTHBEARER)
    else if XOAUTH2 in enabled && e.hasBearer then Some(XOAUTH2)
    else if PLAIN in enabled then Some(PLAIN)
    else if LOGIN in enabled then Some(LOGIN)
    else None
  }

  /** The state without and with an initial response. */
  function FirstStates(m: Mech): (State, State)
  {
    match m
    case EXTERNAL => (External, Final)
    case GSSAPI => (Gssapi, GssapiToken)
    case SCRAM_SHA_256 => (Gsasl, Gsasl)
    case SCRAM_SHA_1 => (Gsasl, Gsasl)
    case DIGEST_MD5 => (DigestMd5, Final)
    case CRAM_MD5 => (CramMd5, Final)
    case NTLM => (Ntlm, NtlmType2Msg)
    case OAUTHBEARER => (Oauth2, Oauth2Resp)
    case XOAUTH2 => (Oauth2, Final)
    case PLAIN => (Plain, Final)
    case LOGIN => (Login, LoginPasswd)
  }

  /** Mechanisms in which the server speaks first have no initial response. */
  predicate ServerFirst(m: Mech)
  {
    m == DIGEST_MD5 || m == CRAM_MD5
  }

  /** An initial response is made. */
  predicate Responds(m: Mech, e: Start)
  {
    e.initial && !ServerFirst(m)
  }

  /** The result of the calls that make and send the first command. */
  function StartResult(m: Mech, e: Start): Code
  {
    if e.message != OK && (Responds(m, e) || m == SCRAM_SHA_1 || m == SCRAM_SHA_256) then e.message
    else if e.build != OK && Responds(m, e) then e.build
    else e.send
  }

  /** `Curl_sasl_start`. */
  function SaslStart(s: Sasl, e: Start): (Sasl, Code, Progress)
  {
    match Choose(s.authmechs * s.prefmech, e)
    case None => (s.(authused := None), OK, Idle)
    case Some(m) =>
      var t := s.(authused := Some(m), mutualAuth := if m == GSSAPI then false else s.mutualAuth);
      if StartResult(m, e) != OK then (t, StartResult(m, e), Idle)
      else
        var (state1, state2) := FirstStates(m);
        (t.(state := if Responds(m, e) && !e.tooLong then state2 else state1), OK, InProgress)
  }

  // ---------- one server reply ----------

  function MessageResult(s: Sasl, x: Step): Code
  {
    if s.state in {DigestMd5Resp, Oauth2Resp} then OK else x.message
  }

  /** The state after the message of this state was made. */
  function NextState(s: Sasl, p: Proto, x: Step): State
  {
    match s.state
    case Login => LoginPasswd
    case Gsasl => if x.message == OK && x.token then Gsasl else Final
    case DigestMd5 => if x.message == OK && p.base64 then DigestMd5Resp else Final
    case Ntlm => NtlmType2Msg
    case Gssapi => GssapiToken
    case GssapiToken => if x.message == OK && s.mutualAuth then GssapiNoData else Final
    case Oauth2 => if s.authused == Some(OAUTHBEARER) then Oauth2Resp else Final
    case _ => Final
  }

  /** Sends the message, cancels the dialog, or stops. */
  function Answer(s: Sasl, p: Proto, x: Step): (Sasl, Code, Progress)
  {
    var result := MessageResult(s, x);
    if result == BadContentEncoding then (s.(state := Cancel), x.cancel, InProgress)
    else if result == OK then (s.(state := NextState(s, p, x)), if x.build != OK then x.build else x.send, InProgress)
    else (s.(state := Stop), result, Done)
  }

  /** `authmechs ^= authused`. */
  function Toggle(mechs: set<Mech>, used: Option<Mech>): set<Mech>
  {
    match used
    case None => mechs
    case Some(m) => if m in mechs then mechs - {m} else mechs + {m}
  }

  /** `Curl_sasl_continue`; `e` is for the case that it starts over. */
  function SaslContinue(s: Sasl, p: Proto, code: int, x: Step, e: Start): (Sasl, Code, Progress)
  {
    if s.state == Final then
      (s.(state := Stop), if code != p.finalcode then LoginDenied else OK, Done)
    else if s.state != Cancel && s.state != Oauth2Resp && code != p.contcode then
      (s.(state := Stop), LoginDenied, Done)
    else if s.state == Stop then (s, OK, Done)
    else if s.state == Oauth2Resp && code == p.finalcode then (s.(state := Stop), OK, Done)
    else if s.state == Oauth2Resp && code != p.contcode then (s.(state := Stop), LoginDenied, Done)
    else if s.state == Cancel then SaslStart(s.(authmechs := Toggle(s.authmechs, s.authused)), e)
    else Answer(s, p, x)
  }

  // ---------- what the choice means ----------

  predicate Candidate(m: Mech, enabled: set<Mech>, e: Start)
  {
    m in enabled && Usable(m, e)
  }

  /** The mechanism chosen is the one of highest security that is enabled and usable; none is, exactly when there is none. */
  lemma ChoosesTheFirst(enabled: set<Mech>, e: Start)
    ensures Choose(enabled, e).None? <==> forall m :: !Candidate(m, enabled, e)
    ensures forall m :: Choose(enabled, e) == Some(m) <==>
              Candidate(m, enabled, e) && forall n :: Candidate(n, enabled, e) ==> Place(m) <= Place(n)
  {
    if Choose(enabled, e).Some? {
      ChosenIsFirst(enabled, e);
      forall m, n | Place(m) == Place(n) ensures m == n {
        PlacesDiffer(m, n);
      }
    } else {
      forall m ensures !Candidate(m, enabled, e) {
        NoneIsNone(enabled, e, m);
      }
    }
  }

  /** `mech` is the candidate of highest security; there is none exactly when there is no candidate. */
  ghost predicate Best(mech: Option<Mech>, enabled: set<Mech>, e: Start)
  {
    match mech
    case None => forall m :: !Candidate(m, enabled, e)
    case Some(m) => Candidate(m, enabled, e) && forall n :: Candidate(n, enabled, e) ==> Place(m) <= Place(n)
  }

  lemma ChoosesTheBest(enabled: set<Mech>, e: Start)
    ensures Best(Choose(enabled, e), enabled, e)
  {
    hide Choose, Candidate, Place;
    ChoosesTheFirst(enabled, e);
  }

  lemma ChosenIsFirst(enabled: set<Mech>, e: Start)
    requires Choose(enabled, e).Some?
    ensures var m := Choose(enabled, e).value;
            Candidate(m, enabled, e) && forall n :: Candidate(n, enabled, e) ==> Place(m) <= Place(n)
  {
    forall n | Candidate(n, enabled, e) ensures Place(Choose(enabled, e).value) <= Place(n) {
      BetterIsChosen(enabled, e, n);
    }
  }

  lemma BetterIsChosen(enabled: set<Mech>, e: Start, n: Mech)
    requires Candidate(n, enabled, e)
    ensures Choose(enabled, e).Some? && Place(Choose(enabled, e).value) <= Place(n)
  {
  }

  lemma NoneIsNone(enabled: set<Mech>, e: Start, n: Mech)
    requires Choose(enabled, e).None?
    ensures !Candidate(n, enabled, e)
  {
    if Candidate(n, enabled, e) {
      BetterIsChosen(enabled, e, n);
    }
  }

  lemma PlacesDiffer(m: Mech, n: Mech)
    requires Place(m) == Place(n)
    ensures m == n
  {
  }

  // ---------- a whole exchange ----------

  /** What a server reply and the calls after it bring. */
  datatype Reply = Reply(code: int, x: Step, e: Start)

  /** The exchange so far, the mechanisms started in it, the last result, and whether its caller goes on. */
  datatype Exchange = Exchange(s: Sasl, tried: seq<Mech>, result: Code, progress: Progress)

  predicate GoesOn(x: Exchange)
  {
    x.result == OK && x.progress == InProgress
  }

  function Noted(tried: seq<Mech>, used: Option<Mech>): seq<Mech>
  {
    if used.Some? then tried + [used.value] else tried
  }

  /** The exchange after `Curl_sasl_start` and a reply for each `Curl_sasl_continue`, as long as the caller goes on. */
  function Run(s: Sasl, p: Proto, e: Start, replies: seq<Reply>): Exchange
  {
    if replies == [] then
      var (t, result, progress) := SaslStart(s, e);
      Exchange(t, Noted([], t.authused), result, progress)
    else
      var before := Run(s, p, e, replies[..|replies| - 1]);
      var r := replies[|replies| - 1];
      if !GoesOn(before) then before else
      var (t, result, progress) := SaslContinue(before.s, p, r.code, r.x, r.e);
      Exchange(t, if before.s.state == Cancel then Noted(before.tried, t.authused) else before.tried, result, progress)
  }

  predicate Distinct(tried: seq<Mech>)
  {
    forall i, j :: 0 <= i < j < |tried| ==> tried[i] != tried[j]
  }

  /** The mechanism in use is still enabled and was tried last; those tried before are no longer enabled. */
  predicate Inv(x: Exchange, mechs: set<Mech>)
  {
    && Distinct(x.tried) && x.s.authmechs <= mechs
    && (forall m :: m in x.tried ==> m in mechs && m in x.s.prefmech)
    && match x.s.authused
       case None => forall m :: m in x.tried ==> m !in x.s.authmechs
       case Some(u) =>
         && x.tried != [] && x.tried[|x.tried| - 1] == u && u in x.s.authmechs
         && forall i :: 0 <= i < |x.tried| - 1 ==> x.tried[i] !in x.s.authmechs
  }

  lemma ChosenIsEnabled(enabled: set<Mech>, e: Start)
    ensures Choose(enabled, e).Some? ==> Choose(enabled, e).value in enabled
  {
  }

  /** What a start leaves as it was. */
  lemma StartChanges(s: Sasl, e: Start)
    ensures var t := SaslStart(s, e).0;
            && t.authmechs == s.authmechs && t.prefmech == s.prefmech
            && t.authused == Choose(s.authmechs * s.prefmech, e)
  {
    hide Choose, FirstStates;
  }

  lemma StartKeepsInv(s: Sasl, tried: seq<Mech>, e: Start, mechs: set<Mech>)
    requires s.authmechs <= mechs && Distinct(tried)
    requires forall m :: m in tried ==> m in mechs && m in s.prefmech && m !in s.authmechs
    ensures var (t, result, progress) := SaslStart(s, e);
            Inv(Exchange(t, Noted(tried, t.authused), result, progress), mechs)
  {
    hide SaslStart, Choose;
    StartChanges(s, e);
    ChosenIsEnabled(s.authmechs * s.prefmech, e);
  }

  /** Only a cancelled dialog changes what is enabled, and then the mechanism in use goes. */
  lemma ContinueChanges(s: Sasl, p: Proto, code: int, x: Step, e: Start)
    requires s.state != Cancel
    ensures var t := SaslContinue(s, p, code, x, e).0;
            t.authmechs == s.authmechs && t.prefmech == s.prefmech && t.authused == s.authused
  {
  }

  lemma CancelRemoves(x: Exchange, mechs: set<Mech>)
    requires Inv(x, mechs)
    ensures var left := Toggle(x.s.authmechs, x.s.authused);
            left <= x.s.authmechs && forall m :: m in x.tried ==> m !in left
  {
  }

  lemma {:induction false} RunKeepsInv(s: Sasl, p: Proto, e: Start, replies: seq<Reply>)
    ensures Inv(Run(s, p, e, replies), s.authmechs) && Run(s, p, e, replies).s.prefmech == s.prefmech
    decreases |replies|
  {
    if replies == [] {
      hide SaslStart, Inv;
      StartKeepsInv(s, [], e, s.authmechs);
      StartChanges(s, e);
    } else {
      RunKeepsInv(s, p, e, replies[..|replies| - 1]);
      if GoesOn(Run(s, p, e, replies[..|replies| - 1])) {
        ReplyKeepsInv(Run(s, p, e, replies[..|replies| - 1]), p, replies[|replies| - 1], s.authmechs);
      }
    }
  }

  lemma ReplyKeepsInv(x: Exchange, p: Proto, r: Reply, mechs: set<Mech>)
    requires Inv(x, mechs) && GoesOn(x)
    ensures var (t, result, progress) := SaslContinue(x.s, p, r.code, r.x, r.e);
            && Inv(Exchange(t, if x.s.state == Cancel then Noted(x.tried, t.authused) else x.tried, result, progress), mechs)
            && t.prefmech == x.s.prefmech
  {
    if x.s.state == Cancel {
      hide Choose, FirstStates, Answer;
      CancelRemoves(x, mechs);
      var u := x.s.(authmechs := Toggle(x.s.authmechs, x.s.authused));
      StartKeepsInv(u, x.tried, r.e, mechs);
      StartChanges(u, r.e);
    } else {
      hide SaslContinue;
      ContinueChanges(x.s, p, r.code, r.x, r.e);
    }
  }

  lemma {:induction false} DistinctFits(tried: seq<Mech>, mechs: set<Mech>)
    requires Distinct(tried) && forall m :: m in tried ==> m in mechs
    ensures |tried| <= |mechs|
    decreases |tried|
  {
    if tried != [] {
      var last, front := tried[|tried| - 1], tried[..|tried| - 1];
      assert forall m :: m in front ==> m in mechs - {last};
      DistinctFits(front, mechs - {last});
      assert |mechs - {last}| == |mechs| - 1;
    }
  }

  /** In one exchange no mechanism is started twice, only mechanisms enabled on both sides are, and so there are no more
      fall backs than such mechanisms. */
  lemma NoMechanismTwice(s: Sasl, p: Proto, e: Start, replies: seq<Reply>)
    ensures var x := Run(s, p, e, replies);
            && Distinct(x.tried) && (forall m :: m in x.tried ==> m in s.authmechs && m in s.prefmech)
            && |x.tried| <= |s.authmechs * s.prefmech|
  {
    hide Run, Distinct;
    RunKeepsInv(s, p, e, replies);
    DistinctFits(Run(s, p, e, replies).tried, s.authmechs * s.prefmech);
  }

  // ---------- success ----------

  /** OK with Done: the reply was the final code, in a state that expects it; only a stopped exchange says so otherwise. */
  lemma SuccessIsEarned(s: Sasl, p: Proto, code: int, x: Step, e: Start)
    ensures var (t, result, progress) := SaslContinue(s, p, code, x, e);
            (result == OK && progress == Done) <==>
              || (s.state in {Final, Oauth2Resp} && code == p.finalcode)
              || (s.state == Stop && code == p.contcode)
  {
    hide Choose, FirstStates, NextState;
  }

  /** An exchange its caller goes on with is not stopped, and a Done one is. */
  lemma {:induction false} GoingOnIsNotStopped(s: Sasl, p: Proto, e: Start, replies: seq<Reply>)
    ensures var x := Run(s, p, e, replies);
            && (GoesOn(x) ==> x.s.state != Stop && x.s.authused.Some?)
            && (x.progress == Done ==> x.s.state == Stop)
    decreases |replies|
  {
    if replies == [] {
      StartIsNotStopped(s, e);
    } else {
      hide SaslStart, SaslContinue;
      GoingOnIsNotStopped(s, p, e, replies[..|replies| - 1]);
      var before, r := Run(s, p, e, replies[..|replies| - 1]), replies[|replies| - 1];
      if GoesOn(before) {
        ReplyIsNotStopped(before.s, p, r.code, r.x, r.e);
      }
    }
  }

  lemma StartIsNotStopped(s: Sasl, e: Start)
    ensures var (t, result, progress) := SaslStart(s, e);
            && progress != Done
            && (result == OK && progress == InProgress ==> t.state !in {Stop, Cancel} && t.authused.Some?)
  {
    hide Choose;
  }

  lemma ReplyIsNotStopped(s: Sasl, p: Proto, code: int, x: Step, e: Start)
    requires s.state != Stop && s.authused.Some?
    ensures var (t, result, progress) := SaslContinue(s, p, code, x, e);
            && (result == OK && progress == InProgress ==> t.state != Stop && t.authused.Some?)
            && (progress == Done ==> t.state == Stop)
  {
    hide SaslStart;
    StartIsNotStopped(s.(authmechs := Toggle(s.authmechs, s.authused)), e);
  }

  /** A whole exchange ends well only on the server's final code. */
  lemma ExchangeIsEarned(s: Sasl, p: Proto, e: Start, replies: seq<Reply>, r: Reply)
    requires GoesOn(Run(s, p, e, replies))
    ensures var x := Run(s, p, e, replies + [r]);
            x.result == OK && x.progress == Done ==> r.code == p.finalcode
  {
    hide SaslContinue, SaslStart;
    assert (replies + [r])[..|replies|] == replies;
    var before := Run(s, p, e, replies);
    GoingOnIsNotStopped(s, p, e, replies);
    SuccessIsEarned(before.s, p, r.code, r.x, r.e);
  }

  // ---------- the exchange comes to an end ----------

  function Rank(state: State): nat
  {
    match state
    case Stop => 0
    case Cancel => 0
    case Final => 1
    case Gssapi => 4
    case GssapiToken => 3
    case Login => 3
    case Ntlm => 3
    case Oauth2 => 3
    case DigestMd5 => 3
    case _ => 2
  }

  /** Replies still possible, apart from further rounds of a SCRAM dialog. */
  function Budget(s: Sasl): nat
  {
    5 * |s.authmechs| + Rank(s.state)
  }

  lemma AnswerDecreases(s: Sasl, p: Proto, x: Step)
    requires s.state !in {Stop, Cancel, Final}
    ensures var t := Answer(s, p, x).0;
            && t.authmechs == s.authmechs
            && (Rank(t.state) < Rank(s.state) || (s.state == Gsasl && t.state == Gsasl))
  {
  }

  /** Every reply that leaves the exchange going on uses up some of the budget, unless it asks for another SCRAM round. */
  lemma ReplyUsesBudget(x: Exchange, p: Proto, r: Reply, mechs: set<Mech>)
    requires Inv(x, mechs) && GoesOn(x) && x.s.state != Stop && x.s.authused.Some?
    ensures var (t, result, progress) := SaslContinue(x.s, p, r.code, r.x, r.e);
            result == OK && progress == InProgress ==> Budget(t) < Budget(x.s) || (x.s.state == Gsasl && t.state == Gsasl)
  {
    var s := x.s;
    if s.state == Cancel {
      hide SaslStart, Rank;
      var u := s.(authmechs := Toggle(s.authmechs, s.authused));
      StartChanges(u, r.e);
      RankIsSmall(SaslStart(u, r.e).0.state);
      assert |u.authmechs| == |s.authmechs| - 1;
      RankOfCancel();
    } else if s.state != Final {
      hide Answer, SaslStart, Rank, Inv;
      AnswerDecreases(s, p, r.x);
    }
  }

  /** The replies among these that only asked for another SCRAM round. */
  function ScramRounds(s: Sasl, p: Proto, e: Start, replies: seq<Reply>): nat
  {
    if replies == [] then 0 else
    var before, after := Run(s, p, e, replies[..|replies| - 1]).s.state, Run(s, p, e, replies).s.state;
    ScramRounds(s, p, e, replies[..|replies| - 1]) + if before == after == Gsasl then 1 else 0
  }

  lemma RunUsesBudget(s: Sasl, p: Proto, e: Start, replies: seq<Reply>, r: Reply)
    requires GoesOn(Run(s, p, e, replies)) && GoesOn(Run(s, p, e, replies + [r]))
    ensures var x, y := Run(s, p, e, replies).s, Run(s, p, e, replies + [r]).s;
            Budget(y) < Budget(x) || (x.state == y.state == Gsasl && y.authmechs == x.authmechs)
  {
    hide Inv, Budget, SaslContinue, SaslStart;
    assert (replies + [r])[..|replies|] == replies;
    var x := Run(s, p, e, replies);
    RunKeepsInv(s, p, e, replies);
    GoingOnIsNotStopped(s, p, e, replies);
    ReplyUsesBudget(x, p, r, s.authmechs);
    if x.s.state == Gsasl {
      ContinueChanges(x.s, p, r.code, r.x, r.e);
    }
  }

  /** An exchange that still goes on after these replies has had at most five for each mechanism the server offers, four
      more, and the SCRAM rounds: falling back from one mechanism to the next comes to an end. */
  lemma {:induction false} RepliesAreBounded(s: Sasl, p: Proto, e: Start, replies: seq<Reply>)
    requires GoesOn(Run(s, p, e, replies))
    ensures |replies| + Budget(Run(s, p, e, replies).s) <= 5 * |s.authmechs| + 4 + ScramRounds(s, p, e, replies)
    decreases |replies|
  {
    if replies == [] {
      hide SaslStart;
      StartChanges(s, e);
      RankIsSmall(SaslStart(s, e).0.state);
    } else {
      var front, r := replies[..|replies| - 1], replies[|replies| - 1];
      assert GoesOn(Run(s, p, e, front));
      hide Run, GoesOn;
      assert replies == front + [r];
      RunUsesBudget(s, p, e, front, r);
      RepliesAreBounded(s, p, e, front);
    }
  }

  /** Once its caller does not go on, further replies change nothing. */
  lemma {:induction false} RunIsOver(s: Sasl, p: Proto, e: Start, replies: seq<Reply>, k: nat)
    requires k <= |replies| && !GoesOn(Run(s, p, e, replies[..k]))
    ensures Run(s, p, e, replies) == Run(s, p, e, replies[..k])
    decreases |replies|
  {
    if k == |replies| {
      assert replies[..k] == replies;
    } else {
      assert replies[..|replies| - 1][..k] == replies[..k];
      RunIsOver(s, p, e, replies[..|replies| - 1], k);
    }
  }

  /** An exchange that ended well did so at a reply with the final code, which its caller was still waiting for. */
  lemma {:induction false} EndsOnFinalCode(s: Sasl, p: Proto, e: Start, replies: seq<Reply>) returns (k: nat)
    requires Run(s, p, e, replies).result == OK && Run(s, p, e, replies).progress == Done
    ensures k < |replies| && replies[k].code == p.finalcode && GoesOn(Run(s, p, e, replies[..k]))
    decreases |replies|
  {
    if replies == [] {
      StartIsNotStopped(s, e);
      assert false;
    } else {
      var front, r := replies[..|replies| - 1], replies[|replies| - 1];
      if GoesOn(Run(s, p, e, front)) {
        hide Run;
        assert replies == front + [r];
        ExchangeIsEarned(s, p, e, front, r);
        k := |replies| - 1;
      } else {
        k := EndsOnFinalCode(s, p, e, front);
        assert front[..k] == replies[..k];
      }
    }
  }

  lemma RankIsSmall(state: State)
    ensures Rank(state) <= 4
  {
  }

  lemma RankOfCancel()
    ensures Rank(Cancel) == 0
  {
  }
}
