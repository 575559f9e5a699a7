/** `struct SASL` of curl/lib/curl_sasl.c, updated by the two functions that drive an exchange. */
module SaslObject {
  import opened CString
  import opened S = Sasl

  class SASL {
    var state: State
    var authmechs: set<Mech>
    var prefmech: set<Mech>
    var authused: Option<Mech>
    var mutualAuth: bool

    ghost function View(): Sasl
      reads this
    {
      S.Sasl(state, authmechs, prefmech, authused, mutualAuth)
    }

    /** `Curl_sasl_init`, with the mechanisms the options prefer. */
    constructor (prefmech: set<Mech>)
      ensures View() == S.Sasl(Stop, {}, prefmech, None, false)
    {
      state, authmechs, this.prefmech, authused, mutualAuth := Stop, {}, prefmech, None, false;
    }

    /** The chain of branches of `Curl_sasl_start`; `mech` is what the command names: the candidate of highest security,
        if there is one. */
    method Choose(e: Start) returns (mech: Option<Mech>, state1: State, state2: State)
      modifies this`authused, this`mutualAuth
      ensures Best(mech, authmechs * prefmech, e)
      ensures mech == authused == S.Choose(authmechs * prefmech, e)
      ensures mech.Some? ==> (state1, state2) == FirstStates(mech.value)
      ensures mutualAuth == if mech == Some(GSSAPI) then false else old(mutualAuth)
    {
      hide Best;
      var enabled := authmechs * prefmech;
      authused, mech, state1, state2 := None, None, Stop, Final;
      if EXTERNAL in enabled && !e.hasPassword {
        state1, authused := External, Some(EXTERNAL);
      } else if e.hasUser {
        if GSSAPI in enabled && GSSAPI in e.supported {
          mutualAuth := false;
          state1, state2, authused := Gssapi, GssapiToken, Some(GSSAPI);
        } else if SCRAM_SHA_256 in enabled && SCRAM_SHA_256 in e.supported {
          state1, state2, authused := Gsasl, Gsasl, Some(SCRAM_SHA_256);
        } else if SCRAM_SHA_1 in enabled && SCRAM_SHA_1 in e.supported {
          state1, state2, authused := Gsasl, Gsasl, Some(SCRAM_SHA_1);
        } else if DIGEST_MD5 in enabled && DIGEST_MD5 in e.supported {
          state1, authused := DigestMd5, Some(DIGEST_MD5);
        } else if CRAM_MD5 in enabled {
          state1, authused := CramMd5, Some(CRAM_MD5);
        } else if NTLM in enabled && NTLM in e.supported {
          state1, state2, authused := Ntlm, NtlmType2Msg, Some(NTLM);
        } else if OAUTHBEARER in enabled && e.hasBearer {
          state1, state2, authused := Oauth2, Oauth2Resp, Some(OAUTHBEARER);
        } else if XOAUTH2 in enabled && e.hasBearer {
          state1, authused := Oauth2, Some(XOAUTH2);
        } else if PLAIN in enabled {
          state1, authused := Plain, Some(PLAIN);
        } else if LOGIN in enabled {
          state1, state2, authused := Login, LoginPasswd, Some(LOGIN);
        }
      }
      mech := authused;
      ChoosesTheBest(enabled, e);
    }

    /** `Curl_sasl_start`. */
    method Start(e: Start) returns (result: Code, progress: Progress)
      modifies this`state, this`authused, this`mutualAuth
      ensures (View(), result, progress) == SaslStart(old(View()), e)
    {
      hide S.Choose, FirstStates;
      result, progress := OK, Idle;
      var mech, state1, state2 := Choose(e);
      if mech.Some? {
        result := StartResult(mech.value, e);
        if result == OK {
          progress := InProgress;
          state := if Responds(mech.value, e) && !e.tooLong then state2 else state1;
        }
      }
    }

    /** `Curl_sasl_continue`. */
    method Continue(p: Proto, code: int, x: Step, e: Start) returns (result: Code, progress: Progress)
      modifies this
      ensures (View(), result, progress) == SaslContinue(old(View()), p, code, x, e)
    {
      hide SaslStart, Answer;
      progress := InProgress;
      if state == Final {
        result := if code != p.finalcode then LoginDenied else OK;
        progress := Done;
        state := Stop;
        return;
      }
      if state != Cancel && state != Oauth2Resp && code != p.contcode {
        state := Stop;
        return LoginDenied, Done;
      }
      if state == Stop {
        return OK, Done;
      }
      if state == Oauth2Resp && code == p.finalcode {
        state := Stop;
        return OK, Done;
      }
      if state == Oauth2Resp && code != p.contcode {
        state := Stop;
        return LoginDenied, Done;
      }
      if state == Cancel {
        authmechs := Toggle(authmechs, authused);
        result, progress := Start(e);
        return;
      }
      result, progress := Message(p, x);
    }

    /** The message of a state, and what is done with it. */
    method Message(p: Proto, x: Step) returns (result: Code, progress: Progress)
      requires state !in {Stop, Cancel, Final}
      modifies this`state
      ensures (View(), result, progress) == Answer(old(View()), p, x)
    {
      var newstate := Final;
      result := x.message;
      progress := InProgress;
      match state {
        case Login => newstate := LoginPasswd;
        case Gsasl => if result == OK && x.token { newstate := Gsasl; }
        case DigestMd5 => if result == OK && p.base64 { newstate := DigestMd5Resp; }
        case DigestMd5Resp => result := OK;   // an empty line
        case Ntlm => newstate := NtlmType2Msg;
        case Gssapi => newstate := GssapiToken;
        case GssapiToken => if result == OK && mutualAuth { newstate := GssapiNoData; }
        case Oauth2 => if authused == Some(OAUTHBEARER) { newstate := Oauth2Resp; }
        case Oauth2Resp => result := OK;      // the continuation is acknowledged
        case _ =>
      }
      if result == BadContentEncoding {
        result := x.cancel;
        newstate := Cancel;
      } else if result == OK {
        result := if x.build != OK then x.build else x.send;
      } else {
        newstate := Stop;
        progress := Done;
      }
      state := newstate;
    }

    /** A whole exchange: a start, then one continuation for each reply as long as the caller goes on. No mechanism is
        started twice, and it ends well only on a reply with the server's final code. */
    method Authenticate(p: Proto, e: Start, replies: seq<Reply>)
      returns (result: Code, progress: Progress, tried: seq<Mech>)
      modifies this
      ensures Exchange(View(), tried, result, progress) == Run(old(View()), p, e, replies)
      ensures Distinct(tried) && |tried| <= |old(authmechs * prefmech)|
      ensures forall m :: m in tried ==> m in old(authmechs * prefmech)
      ensures result == OK && progress == Done ==> state == Stop && exists r :: r in replies && r.code == p.finalcode
    {
      hide SaslStart, SaslContinue, Distinct;
      ghost var s := View();
      result, progress := Start(e);
      tried := if authused.Some? then [authused.value] else [];
      var i := 0;
      while i < |replies| && result == OK && progress == InProgress
        invariant 0 <= i <= |replies| && Exchange(View(), tried, result, progress) == Run(s, p, e, replies[..i])
      {
        var again := state == Cancel;
        assert replies[..i + 1][..i] == replies[..i];
        result, progress := Continue(p, replies[i].code, replies[i].x, replies[i].e);
        tried := if again && authused.Some? then tried + [authused.value] else tried;
        i := i + 1;
      }
      hide Run;
      if i < |replies| {
        RunIsOver(s, p, e, replies, i);
      } else {
        assert replies[..i] == replies;
      }
      NoMechanismTwice(s, p, e, replies);
      GoingOnIsNotStopped(s, p, e, replies);
      if result == OK && progress == Done {
        ghost var k := EndsOnFinalCode(s, p, e, replies);
        assert replies[k] in replies;
      }
    }
  }
}
