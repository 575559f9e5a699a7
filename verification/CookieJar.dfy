/** The cookie jar as a value: what each jar operation does, and what every run of them keeps
    (curl/lib/cookie.c). `CookieStore` holds the linked chains that implement it. */
module CookieJar {
  import opened CString
  import opened CookieMatch
  import opened CookieParse

  const MAX_SEND: nat := 150

  datatype Jar = Jar(
    chains: seq<seq<Cookie>>,   // one chain of cookies per bucket
    numcookies: int,
    running: bool,              // not reading a file
    newsession: bool,           // discard session cookies on load
    lastct: int,                // last creation time used
    nextExpiration: int)        // no cookie expires before this time

  /** A jar as `Curl_cookie_init` leaves it. */
  function EmptyJar(): Jar
  {
    Jar(seq(BUCKETS, _ => []), 0, true, false, 0, OFF_MAX)
  }

  // ---------- filtering chains ----------

  function Keep(chain: seq<Cookie>, p: Cookie -> bool): (r: seq<Cookie>)
    ensures forall c :: c in r <==> c in chain && p(c)
    ensures |r| <= |chain|
  {
    if chain == [] then [] else
    (if p(chain[0]) then [chain[0]] else []) + Keep(chain[1..], p)
  }

  function KeepAll(chains: seq<seq<Cookie>>, p: Cookie -> bool): (r: seq<seq<Cookie>>)
    ensures |r| == |chains|
    ensures forall b :: 0 <= b < |r| ==> r[b] == Keep(chains[b], p)
  {
    seq(|chains|, b requires 0 <= b < |chains| => Keep(chains[b], p))
  }

  function Total(chains: seq<seq<Cookie>>): nat
  {
    if chains == [] then 0 else |chains[0]| + Total(chains[1..])
  }

  predicate IsExpired(c: Cookie, now: Time)
  {
    c.expires != 0 && c.expires < now
  }

  function Unexpired(now: Time): Cookie -> bool
  {
    (c: Cookie) => !IsExpired(c, now)
  }

  function Persistent(): Cookie -> bool
  {
    (c: Cookie) => c.expires != 0
  }

  // ---------- remove_expired ----------

  function MinExpiry(chain: seq<Cookie>, m: int): int
    decreases |chain|
  {
    if chain == [] then m
    else MinExpiry(chain[1..], if chain[0].expires != 0 && chain[0].expires < m then chain[0].expires else m)
  }

  function MinExpiryAll(chains: seq<seq<Cookie>>, m: int): int
    decreases |chains|
  {
    if chains == [] then m else MinExpiryAll(chains[1..], MinExpiry(chains[0], m))
  }

  /** The jar with only the cookies that satisfy `p`, and the watermark `next`. */
  function Filtered(j: Jar, p: Cookie -> bool, next: int): Jar
  {
    var kept := KeepAll(j.chains, p);
    j.(chains := kept, numcookies := j.numcookies - (Total(j.chains) - Total(kept)), nextExpiration := next)
  }

  /** Every chain without its expired cookies, and the watermark measured anew. */
  function FullSweep(j: Jar, now: Time): Jar
  {
    Filtered(j, Unexpired(now), MinExpiryAll(KeepAll(j.chains, Unexpired(now)), OFF_MAX))
  }

  function RemoveExpired(j: Jar, now: Time): (r: Jar)
    ensures |r.chains| == |j.chains|
  {
    if now < j.nextExpiration && j.nextExpiration != OFF_MAX then j else FullSweep(j, now)
  }

  // ---------- Curl_cookie_add, from the parsed line on ----------

  predicate OptCaseEq(a: Option<string>, b: Option<string>)
  {
    (a.None? && b.None?) || (a.Some? && b.Some? && CaseEq(a.value, b.value))
  }

  /** The cookies a new one replaces: same name, domain, tailmatch flag and sanitized path. */
  predicate SameIdentity(a: Cookie, b: Cookie)
  {
    && CaseEq(a.name, b.name)
    && OptCaseEq(a.domain, b.domain) && (a.domain.Some? ==> a.tailmatch == b.tailmatch)
    && OptCaseEq(a.spath, b.spath)
  }

  /** How much of a secure cookie's path is protected: up to its second slash. */
  function SecureScope(spath: string): nat
  {
    if spath == "" then 0 else 1 + Find(spath[1..], '/')
  }

  /** A non-secure cookie over an insecure connection would hide `prior`, a secure one. */
  predicate Overlays(prior: Cookie, co: Cookie, secure: bool)
  {
    && CaseEq(prior.name, co.name) && OptCaseEq(prior.domain, co.domain)
    && prior.spath.Some? && co.spath.Some?
    && prior.secure && !co.secure && !secure
    && NCaseEq(prior.spath.value, co.spath.value, SecureScope(prior.spath.value))
  }

  function FirstSame(chain: seq<Cookie>, co: Cookie): (k: nat)
    ensures k <= |chain|
    ensures k < |chain| ==> SameIdentity(chain[k], co)
    ensures forall i :: 0 <= i < k ==> !SameIdentity(chain[i], co)
  {
    if chain == [] || SameIdentity(chain[0], co) then 0 else 1 + FirstSame(chain[1..], co)
  }

  datatype Verdict = Refused | Replaced(at: nat) | Appended

  function Judge(chain: seq<Cookie>, co: Cookie, secure: bool): (v: Verdict)
    ensures v.Replaced? ==> v.at < |chain| && SameIdentity(chain[v.at], co)
    ensures v.Appended? ==> forall c :: c in chain ==> !SameIdentity(c, co)
  {
    var k := FirstSame(chain, co);
    if exists i :: 0 <= i < |chain| && Overlays(chain[i], co, secure) then Refused
    else if k == |chain| then Appended
    else if chain[k].live && !co.live then Refused
    else Replaced(k)
  }

  function Place(chain: seq<Cookie>, co: Cookie, v: Verdict): seq<Cookie>
    requires v.Replaced? ==> v.at < |chain|
  {
    match v
    case Refused => chain
    case Replaced(k) => chain[k := co.(ct := chain[k].ct)]
    case Appended => chain + [co]
  }

  function Store(j: Jar, co: Cookie, secure: bool, isIp: string -> bool): (r: Jar)
    requires |j.chains| == BUCKETS
    ensures |r.chains| == BUCKETS
  {
    var b := CookieHash(co.domain, isIp);
    var v := Judge(j.chains[b], co, secure);
    if v.Refused? then j else
    j.(chains := j.chains[b := Place(j.chains[b], co, v)],
       numcookies := if v.Appended? then j.numcookies + 1 else j.numcookies,
       nextExpiration := if co.expires != 0 && co.expires < j.nextExpiration then co.expires else j.nextExpiration)
  }

  /** A line that parsed may still be turned away before the jar is looked at. */
  predicate Admissible(j: Jar, p: Parsed)
  {
    PrefixRules(p) && !(!j.running && j.newsession && p.cookie.expires == 0)
  }

  /** The parsed cookie with the jar's marks on it. */
  function Stamped(j: Jar, p: Parsed): Cookie
  {
    p.cookie.(live := j.running, ct := j.lastct + 1)
  }

  function AddParsed(j: Jar, p: Option<Parsed>, secure: bool, noexpire: bool, now: Time, isIp: string -> bool): (r: Jar)
    requires |j.chains| == BUCKETS
    ensures |r.chains| == BUCKETS
  {
    if p.None? || !Admissible(j, p.value) then j else
    var j1 := j.(lastct := j.lastct + 1);
    Store(if noexpire then j1 else RemoveExpired(j1, now), Stamped(j, p.value), secure, isIp)
  }

  // ---------- clearing ----------

  function ClearSession(j: Jar): Jar
  {
    Filtered(j, Persistent(), j.nextExpiration)
  }

  function ClearAll(j: Jar): Jar
  {
    j.(chains := seq(|j.chains|, _ => []), numcookies := 0)
  }

  // ---------- runs ----------

  datatype Event =
    | AddHeader(attrs: seq<Attr>, request: Request, noexpire: bool)   // `noexpire` for lines read from a file
    | AddFileLine(line: string, secure: bool, noexpire: bool, now: Time)
    | Expire(now: Time)                       // every lookup, save and load sweeps first
    | DropSession
    | DropAll
    | SetMode(running: bool, newsession: bool)

  function Apply(j: Jar, e: Event, isIp: string -> bool): Jar
    requires |j.chains| == BUCKETS
    ensures |Apply(j, e, isIp).chains| == BUCKETS
  {
    match e
    case AddHeader(attrs, r, noexpire) =>
      AddParsed(j, ParseHeader(attrs, r, j.running), r.secure, noexpire, r.now, isIp)
    case AddFileLine(line, secure, noexpire, now) =>
      AddParsed(j, ParseNetscape(line, secure, j.running), secure, noexpire, now, isIp)
    case Expire(now) => RemoveExpired(j, now)
    case DropSession => ClearSession(j)
    case DropAll => ClearAll(j)
    case SetMode(running, newsession) => j.(running := running, newsession := newsession)
  }

  function Run(j: Jar, events: seq<Event>, isIp: string -> bool): (r: Jar)
    requires |j.chains| == BUCKETS
    ensures |r.chains| == BUCKETS
    decreases |events|
  {
    if events == [] then j else Run(Apply(j, events[0], isIp), events[1..], isIp)
  }

  // ---------- the invariant ----------

  predicate WellFormed(c: Cookie)
  {
    && 0 <= c.expires <= OFF_MAX
    && c.name != ""
    && (HasSecurePrefix(c.name) ==> c.secure)
    && (!HasSecurePrefix(c.name) && HasHostPrefix(c.name) ==>
          c.secure && c.path == Some("/") && !c.tailmatch)
    && (c.spath == (if c.path.None? then None else Some(Sanitize(c.path.value)))
        || (c.path == Some("/") && c.spath == Some("/")))
  }

  /** What holds of one cookie in bucket `b`. */
  predicate Filed(j: Jar, b: nat, c: Cookie, isIp: string -> bool)
  {
    && CookieHash(c.domain, isIp) == b
    && c.ct <= j.lastct
    && (c.expires != 0 ==> j.nextExpiration <= c.expires)
    && WellFormed(c)
  }

  predicate Apart(a: Cookie, b: Cookie)
  {
    a.ct != b.ct && !SameIdentity(a, b)
  }

  predicate AllApart(chain: seq<Cookie>)
  {
    forall i, k :: 0 <= i < k < |chain| ==> Apart(chain[i], chain[k])
  }

  predicate TimesApart(chains: seq<seq<Cookie>>)
  {
    forall a, b, x, y :: 0 <= a < b < |chains| && x in chains[a] && y in chains[b] ==> x.ct != y.ct
  }

  predicate Inv(j: Jar, isIp: string -> bool)
  {
    && |j.chains| == BUCKETS
    && (forall b, c :: 0 <= b < BUCKETS && c in j.chains[b] ==> Filed(j, b, c, isIp))
    && (forall b :: 0 <= b < BUCKETS ==> AllApart(j.chains[b]))
    && TimesApart(j.chains)
    && j.numcookies == Total(j.chains)
  }
}
