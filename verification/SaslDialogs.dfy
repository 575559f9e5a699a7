/** The dialogs of curl/lib/curl_sasl.c written out: which mechanism is picked, the states its dialog goes through, and
    what ends it. Nothing here speaks through the tables of the state machine itself. */
module SaslDialogs {
  import opened CString
  import opened Sasl

  // ---------- the mechanism picked ----------

  /** The mechanisms by decreasing security. */
  const ORDER: seq<Mech> := [
    EXTERNAL, GSSAPI, SCRAM_SHA_256, SCRAM_SHA_1, DIGEST_MD5, CRAM_MD5, NTLM, OAUTHBEARER, XOAUTH2, PLAIN, LOGIN]

  /** EXTERNAL is for no password, the rest is for a user name; some need the build, and the OAuth ones a bearer. */
  predicate Possible(m: Mech, enabled: set<Mech>, e: Start)
  {
    && m in enabled
    && (if m == EXTERNAL then !e.hasPassword else e.hasUser)
    && (m in {GSSAPI, SCRAM_SHA_256, SCRAM_SHA_1, DIGEST_MD5, NTLM} ==> m in e.supported)
    && (m in {OAUTHBEARER, XOAUTH2} ==> e.hasBearer)
  }

  /** The mechanism picked is the first possible one of the list. */
  lemma PicksTheFirst(enabled: set<Mech>, e: Start, i: nat)
    requires i < |ORDER|
    ensures Choose(enabled, e) == Some(ORDER[i]) <==>
              Possible(ORDER[i], enabled, e) && forall j :: 0 <= j < i ==> !Possible(ORDER[j], enabled, e)
    ensures Choose(enabled, e).None? <==> forall m :: !Possible(m, enabled, e)
  {
    hide Choose;
    ChoosesTheFirst(enabled, e);
    PlaceIsIndex(i);
    forall m ensures Candidate(m, enabled, e) == Possible(m, enabled, e) {
      PossibleIsCandidate(m, enabled, e);
    }
    if Possible(ORDER[i], enabled, e) && forall j :: 0 <= j < i ==> !Possible(ORDER[j], enabled, e) {
      forall n | Candidate(n, enabled, e) ensures Place(ORDER[i]) <= Place(n) {
        PlaceIsIndex(Place(n));
        IndexIsPlace(n);
      }
    }
    forall j: nat | j < i ensures Place(ORDER[j]) < Place(ORDER[i]) {
      PlaceIsIndex(j);
    }
  }

  lemma PlaceIsIndex(i: nat)
    requires i < |ORDER|
    ensures Place(ORDER[i]) == i
  {
  }

  lemma IndexIsPlace(m: Mech)
    ensures Place(m) < |ORDER| && ORDER[Place(m)] == m
  {
  }

  lemma PossibleIsCandidate(m: Mech, enabled: set<Mech>, e: Start)
    ensures Candidate(m, enabled, e) == Possible(m, enabled, e)
  {
  }

  // ---------- the first command ----------

  predicate IsScram(m: Mech)
  {
    m in {SCRAM_SHA_1, SCRAM_SHA_256}
  }

  /** The first message is made at once; only then can its making or its encoding fail. */
  predicate MadeAtOnce(m: Mech, e: Start)
  {
    e.initial && m !in {DIGEST_MD5, CRAM_MD5}
  }

  /** How a start turns out: no mechanism, a failure, which is the first one on its way, or a dialog. */
  lemma StartRule(s: Sasl, e: Start)
    ensures var (t, result, progress) := SaslStart(s, e); var m := t.authused;
            && (m.None? ==> result == OK && progress == Idle && t.state == s.state)
            && (progress == InProgress <==> m.Some? && result == OK)
            && progress != Done
            && (result != OK ==> t.state == s.state)
            && (m.Some? ==>
                  result == if e.message != OK && (MadeAtOnce(m.value, e) || IsScram(m.value)) then e.message
                            else if e.build != OK && MadeAtOnce(m.value, e) then e.build
                            else e.send)
  {
    hide Choose, FirstStates;
  }

  // ---------- the dialog of a mechanism ----------

  /** The states of a dialog whose command went out alone, as long as every message can be made. */
  function Script(m: Mech, base64: bool): seq<State>
    requires !IsScram(m)
  {
    match m
    case EXTERNAL => [External, Final]
    case GSSAPI => [Gssapi, GssapiToken, Final]
    case DIGEST_MD5 => if base64 then [DigestMd5, DigestMd5Resp, Final] else [DigestMd5, Final]
    case CRAM_MD5 => [CramMd5, Final]
    case NTLM => [Ntlm, NtlmType2Msg, Final]
    case OAUTHBEARER => [Oauth2, Oauth2Resp, Final]
    case XOAUTH2 => [Oauth2, Final]
    case PLAIN => [Plain, Final]
    case LOGIN => [Login, LoginPasswd, Final]
  }

  /** The first message went with the command. */
  predicate SentAtOnce(m: Mech, e: Start)
  {
    MadeAtOnce(m, e) && !e.tooLong
  }

  /** The state that a dialog, started with `e`, has after these replies: the next one of the script, which begins one
      further if the first message went with the command; a SCRAM dialog goes round as long as there are tokens. */
  predicate WaitsIn(state: State, m: Mech, e: Start, base64: bool, replies: seq<Reply>)
  {
    if IsScram(m) then
      state == if forall r :: r in replies ==> r.x.token then Gsasl else Final
    else
      var i := |replies| + if SentAtOnce(m, e) then 1 else 0;
      i < |Script(m, base64)| && state == Script(m, base64)[i]
  }

  /** The last of these replies, or the start itself, started a mechanism. */
  predicate StartsHere(s: Sasl, p: Proto, e: Start, replies: seq<Reply>)
  {
    replies == [] || (GoesOn(Run(s, p, e, replies[..|replies| - 1])) && Run(s, p, e, replies[..|replies| - 1]).s.state == Cancel)
  }

  function StartOf(e: Start, replies: seq<Reply>): Start
  {
    if replies == [] then e else replies[|replies| - 1].e
  }

  /** Whatever the server replies: while a dialog goes on and is not cancelled, it is in the state its script says. */
  lemma {:induction false} FollowsTheScript(s: Sasl, p: Proto, e: Start, before: seq<Reply>, replies: seq<Reply>)
    requires StartsHere(s, p, e, before) && GoesOn(Run(s, p, e, before + replies))
    requires forall k :: 0 <= k <= |replies| ==> Run(s, p, e, before + replies[..k]).s.state != Cancel
    ensures GoesOn(Run(s, p, e, before))
    ensures var x, y := Run(s, p, e, before).s, Run(s, p, e, before + replies).s;
            && x.authused.Some? && y.authused == x.authused && y.authmechs == x.authmechs
            && WaitsIn(y.state, x.authused.value, StartOf(e, before), p.base64, replies)
            && (x.authused == Some(GSSAPI) ==> !y.mutualAuth)
    decreases |replies|
  {
    hide Run, GoesOn, WaitsIn, StartsHere, StartOf, SaslContinue;
    assert replies[..|replies|] == replies;
    if replies == [] {
      assert before + replies == before;
      StartWaits(s, p, e, before);
    } else {
      var front, r := replies[..|replies| - 1], replies[|replies| - 1];
      assert before + replies == (before + front) + [r];
      RunOneMore(s, p, e, before + front, r);
      assert forall k :: 0 <= k <= |front| ==> front[..k] == replies[..k];
      FollowsTheScript(s, p, e, before, front);
      var x := Run(s, p, e, before + front).s;
      ReplyWaits(x, p, r, x.authused.value, StartOf(e, before), front);
      assert front + [r] == replies;
    }
  }

  /** The last reply of an exchange that goes on was handled by one continuation. */
  lemma RunOneMore(s: Sasl, p: Proto, e: Start, replies: seq<Reply>, r: Reply)
    requires GoesOn(Run(s, p, e, replies + [r]))
    ensures GoesOn(Run(s, p, e, replies))
    ensures var x, y := Run(s, p, e, replies), Run(s, p, e, replies + [r]);
            SaslContinue(x.s, p, r.code, r.x, r.e) == (y.s, OK, InProgress)
  {
    hide SaslContinue, SaslStart;
    assert (replies + [r])[..|replies|] == replies;
  }

  lemma StartWaits(s: Sasl, p: Proto, e: Start, replies: seq<Reply>)
    requires StartsHere(s, p, e, replies) && GoesOn(Run(s, p, e, replies))
    ensures var x := Run(s, p, e, replies).s;
            && x.authused.Some? && (x.authused == Some(GSSAPI) ==> !x.mutualAuth)
            && WaitsIn(x.state, x.authused.value, StartOf(e, replies), p.base64, [])
  {
    hide SaslStart, WaitsIn;
    if replies == [] {
      StartedWaits(s, p, e);
    } else {
      var x, r := Run(s, p, e, replies[..|replies| - 1]), replies[|replies| - 1];
      StartedWaits(x.s.(authmechs := Toggle(x.s.authmechs, x.s.authused)), p, r.e);
    }
  }

  lemma StartedWaits(s: Sasl, p: Proto, e: Start)
    requires SaslStart(s, e).1 == OK && SaslStart(s, e).2 == InProgress
    ensures var x := SaslStart(s, e).0;
            && x.authused.Some? && (x.authused == Some(GSSAPI) ==> !x.mutualAuth)
            && WaitsIn(x.state, x.authused.value, e, p.base64, [])
  {
    hide Choose;
  }

  /** One reply takes a dialog that goes on one state further. */
  lemma ReplyWaits(s: Sasl, p: Proto, r: Reply, m: Mech, e: Start, replies: seq<Reply>)
    requires s.authused == Some(m) && (m == GSSAPI ==> !s.mutualAuth) && WaitsIn(s.state, m, e, p.base64, replies)
    requires SaslContinue(s, p, r.code, r.x, r.e).1 == OK && SaslContinue(s, p, r.code, r.x, r.e).2 == InProgress
    requires SaslContinue(s, p, r.code, r.x, r.e).0.state != Cancel
    ensures var t := SaslContinue(s, p, r.code, r.x, r.e).0;
            && t.authused == s.authused && t.authmechs == s.authmechs && t.mutualAuth == s.mutualAuth
            && WaitsIn(t.state, m, e, p.base64, replies + [r])
  {
    hide SaslStart, WaitsIn, NextState;
    WaitsForAReply(s.state, m, e, p.base64, replies);
    NextWaits(s, p, r, m, e, replies);
  }

  lemma WaitsForAReply(state: State, m: Mech, e: Start, base64: bool, replies: seq<Reply>)
    requires WaitsIn(state, m, e, base64, replies)
    ensures state !in {Stop, Cancel}
  {
    hide SentAtOnce;
  }

  /** The state after a message that could be made, or is empty, is the next one of the script. */
  lemma NextWaits(s: Sasl, p: Proto, r: Reply, m: Mech, e: Start, replies: seq<Reply>)
    requires s.authused == Some(m) && (m == GSSAPI ==> !s.mutualAuth) && WaitsIn(s.state, m, e, p.base64, replies)
    requires MessageResult(s, r.x) == OK && s.state != Final
    ensures WaitsIn(NextState(s, p, r.x), m, e, p.base64, replies + [r])
  {
    if IsScram(m) {
      hide Script;
      assert r in replies + [r];
      assert forall q :: q in replies + [r] <==> q in replies || q == r;
    } else {
      var i := |replies| + if SentAtOnce(m, e) then 1 else 0;
      hide SentAtOnce;
      NextInScript(s, p, r.x, m, i);
    }
  }

  lemma NextInScript(s: Sasl, p: Proto, x: Step, m: Mech, i: nat)
    requires s.authused == Some(m) && (m == GSSAPI ==> !s.mutualAuth) && !IsScram(m)
    requires i < |Script(m, p.base64)| && s.state == Script(m, p.base64)[i]
    requires MessageResult(s, x) == OK && s.state != Final
    ensures i + 1 < |Script(m, p.base64)| && NextState(s, p, x) == Script(m, p.base64)[i + 1]
  {
  }

  // ---------- what the server's replies do ----------

  /** Every reply of a dialog, in plain terms. */
  lemma ReplyRule(s: Sasl, p: Proto, code: int, x: Step, e: Start)
    requires s.state !in {Stop, Cancel}
    ensures var (t, result, progress) := SaslContinue(s, p, code, x, e);
            var speaks := code == p.contcode && s.state != Final && !(s.state == Oauth2Resp && p.finalcode == p.contcode);
            var made := s.state in {DigestMd5Resp, Oauth2Resp} || x.message == OK;
            // the server ends the dialog, and well only with its final code where that is awaited
            && (!speaks ==> progress == Done && t.state == Stop &&
                            result == if s.state in {Final, Oauth2Resp} && code == p.finalcode then OK else LoginDenied)
            // the message was made, and goes out if it can be encoded and sent
            && (speaks && made ==> progress == InProgress && t.state !in {Stop, Cancel} &&
                                   result == if x.build != OK then x.build else x.send)
            // the server's message was not base64: the dialog is cancelled
            && (speaks && !made && x.message == BadContentEncoding ==>
                  progress == InProgress && t.state == Cancel && result == x.cancel)
            && (speaks && !made && x.message != BadContentEncoding ==>
                  progress == Done && t.state == Stop && result == x.message)
  {
    hide SaslStart;
  }

  /** After a cancelled dialog its mechanism alone is dropped, and the first possible one of the others is started; if
      there is none, the exchange is idle. */
  lemma FallsBack(s: Sasl, p: Proto, e: Start, replies: seq<Reply>, r: Reply)
    requires GoesOn(Run(s, p, e, replies)) && Run(s, p, e, replies).s.state == Cancel
    ensures Run(s, p, e, replies).tried != []
    ensures var x, y := Run(s, p, e, replies), Run(s, p, e, replies + [r]); var last := x.tried[|x.tried| - 1];
            && last in x.s.authmechs && y.s.authmechs == x.s.authmechs - {last} && y.s.prefmech == s.prefmech
            && y.s.authused == Choose(y.s.authmechs * s.prefmech, r.e)
            && y.tried == x.tried + (if y.s.authused.Some? then [y.s.authused.value] else [])
            && (y.s.authused.None? ==> y.result == OK && y.progress == Idle)
  {
    hide SaslStart, Choose;
    var x := Run(s, p, e, replies);
    RunKeepsInv(s, p, e, replies);
    GoingOnIsNotStopped(s, p, e, replies);
    assert (replies + [r])[..|replies|] == replies;
    var u := x.s.(authmechs := Toggle(x.s.authmechs, x.s.authused));
    StartChanges(u, r.e);
    StartRule(u, r.e);
  }

  // ---------- a dialog that goes well ----------

  /** The server asks for the next message, which is made, encoded and sent. */
  predicate Smooth(r: Reply, p: Proto)
  {
    r.code == p.contcode && r.x == Step(OK, r.x.token, OK, OK, r.x.cancel)
  }

  /** With smooth replies a dialog goes on up to the end of its script. */
  lemma {:induction false} GoesWell(s: Sasl, p: Proto, e: Start, m: Mech, replies: seq<Reply>)
    requires GoesOn(Run(s, p, e, [])) && Run(s, p, e, []).s.authused == Some(m) && !IsScram(m)
    requires |replies| + (if SentAtOnce(m, e) then 1 else 0) < |Script(m, p.base64)|
    requires p.contcode != p.finalcode && forall r :: r in replies ==> Smooth(r, p)
    ensures GoesOn(Run(s, p, e, replies)) && Run(s, p, e, replies).s.state != Cancel
    decreases |replies|, 0
  {
    hide SaslStart, SaslContinue, WaitsIn, Script, SentAtOnce;
    if replies == [] {
      StartIsNotStopped(s, e);
    } else {
      var front, r := replies[..|replies| - 1], replies[|replies| - 1];
      assert r in replies;
      WellWaits(s, p, e, m, front);
      GoesWell(s, p, e, m, front);
      var x := Run(s, p, e, front);
      NotYetFinal(x.s.state, m, e, p.base64, front);
      GoingOnIsNotStopped(s, p, e, front);
      ReplyRule(x.s, p, r.code, r.x, r.e);
    }
  }

  lemma {:induction false} WellWaits(s: Sasl, p: Proto, e: Start, m: Mech, replies: seq<Reply>)
    requires GoesOn(Run(s, p, e, [])) && Run(s, p, e, []).s.authused == Some(m) && !IsScram(m)
    requires |replies| + (if SentAtOnce(m, e) then 1 else 0) < |Script(m, p.base64)|
    requires p.contcode != p.finalcode && forall r :: r in replies ==> Smooth(r, p)
    ensures WaitsIn(Run(s, p, e, replies).s.state, m, e, p.base64, replies)
    decreases |replies|, 1
  {
    forall k | 0 <= k <= |replies| ensures Run(s, p, e, [] + replies[..k]).s.state != Cancel {
      hide Run, Script, SentAtOnce, Smooth;
      assert [] + replies[..k] == replies[..k];
      GoesWell(s, p, e, m, replies[..k]);
    }
    hide Run, Script, SentAtOnce, Smooth, WaitsIn;
    GoesWell(s, p, e, m, replies);
    assert [] + replies == replies;
    FollowsTheScript(s, p, e, [], replies);
  }

  lemma NotYetFinal(state: State, m: Mech, e: Start, base64: bool, replies: seq<Reply>)
    requires !IsScram(m) && WaitsIn(state, m, e, base64, replies)
    ensures |replies| + (if SentAtOnce(m, e) then 1 else 0) + 1 < |Script(m, base64)| ==> state != Final
    ensures |replies| + (if SentAtOnce(m, e) then 1 else 0) + 1 == |Script(m, base64)| ==> state == Final
  {
  }

  /** Smooth replies to the end of the script and then the final code: the exchange ends well. */
  lemma EndsWell(s: Sasl, p: Proto, e: Start, m: Mech, replies: seq<Reply>, r: Reply)
    requires GoesOn(Run(s, p, e, [])) && Run(s, p, e, []).s.authused == Some(m) && !IsScram(m)
    requires |replies| + (if SentAtOnce(m, e) then 1 else 0) + 1 == |Script(m, p.base64)|
    requires p.contcode != p.finalcode && r.code == p.finalcode && forall r :: r in replies ==> Smooth(r, p)
    ensures var x := Run(s, p, e, replies + [r]);
            x.result == OK && x.progress == Done
  {
    hide SaslStart, SaslContinue, WaitsIn, Script, SentAtOnce;
    WellWaits(s, p, e, m, replies);
    GoesWell(s, p, e, m, replies);
    NotYetFinal(Run(s, p, e, replies).s.state, m, e, p.base64, replies);
    assert (replies + [r])[..|replies|] == replies;
    ReplyRule(Run(s, p, e, replies).s, p, r.code, r.x, r.e);
  }
}
