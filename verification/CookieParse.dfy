/** The cookie record and the two line formats that produce one (curl/lib/cookie.c, curl/lib/cookie.h). */
module CookieParse {
  import opened CString
  import opened CookieMatch

  const OFF_MAX: int := 0x7FFF_FFFF_FFFF_FFFF

  /** The values of `curl_off_t`, and those a clock shows. */
  type OffT = x: int | -OFF_MAX - 1 <= x <= OFF_MAX
  type Time = x: int | 0 <= x <= OFF_MAX

  datatype Cookie = Cookie(
    name: string, value: string,
    path: Option<string>,    // as received
    spath: Option<string>,   // sanitized
    domain: Option<string>,
    expires: int,            // 0 for a session cookie
    tailmatch: bool, secure: bool, live: bool, httponly: bool,
    ct: int)                 // creation time, a counter

  /** A cookie line that was read successfully, with the reserved name prefixes noticed on the way. */
  datatype Parsed = Parsed(cookie: Cookie, securePrefix: bool, hostPrefix: bool)

  const BLANK_COOKIE := Cookie("", "", None, None, None, 0, false, false, false, false, 0)

  // ---------- decimal numbers ----------

  datatype Number = Ok(value: int) | Invalid | Overflow

  predicate IsDigit(c: char)
  {
    '0' <= c <= '9'
  }

  function SkipBlanks(s: string): string
  {
    if s != "" && IsBlank(s[0]) then SkipBlanks(s[1..]) else s
  }

  function LeadingDigits(s: string): string
  {
    if s != "" && IsDigit(s[0]) then [s[0]] + LeadingDigits(s[1..]) else ""
  }

  function Decimal(s: string): int
  {
    if s == "" then 0 else 10 * Decimal(s[..|s| - 1]) + (s[|s| - 1] as int - '0' as int)
  }

  /** `curlx_strtoofft` in base 10: no minus sign, at least one digit, at most 63 bits. */
  function ToOffT(s: string): Number
  {
    var t := SkipBlanks(s);
    var d := LeadingDigits(if t != "" && t[0] == '+' then t[1..] else t);
    if d == "" then Invalid else if Decimal(d) > OFF_MAX then Overflow else Ok(Decimal(d))
  }

  // ---------- Set-Cookie: header lines ----------

  /** One `name = what` pair of a header line: trimmed, and whether an equals sign followed the name. */
  datatype Pair = Pair(name: string, sep: bool, what: string)
  type Attr = a: Pair | a.name != "" witness Pair("a", false, "")

  /** What surrounds a header line. */
  datatype Request = Request(
    host: Option<string>, path: Option<string>,
    secure: bool,            // the connection is secure
    now: Time,
    isIp: string -> bool,
    date: string -> OffT)    // the date parser; negative when it fails

  /** The cookie under construction. */
  datatype Draft = Draft(
    named: bool, cookie: Cookie, securePrefix: bool, hostPrefix: bool,
    host: Option<string>, maxAge: Option<string>, expireStr: Option<string>)

  predicate HasSecurePrefix(name: string)
  {
    NCaseEq("__Secure-", name, 9)
  }

  predicate HasHostPrefix(name: string)
  {
    NCaseEq("__Host-", name, 7)
  }

  predicate InvalidOctets(s: string)
  {
    exists i :: 0 <= i < |s| && s[i] != TAB && (1 as char <= s[i] < 32 as char || s[i] == 127 as char)
  }

  /** No dot inside the domain, and not "localhost". */
  predicate BadDomain(domain: string)
  {
    !CaseEq(domain, "localhost") && (Find(domain, '.') + 1 >= |domain|)
  }

  function NotePrefix(d: Draft, name: string): Draft
  {
    if |name| > 3 && name[..2] == "__" then
      if HasSecurePrefix(name) then d.(securePrefix := true)
      else if HasHostPrefix(name) then d.(hostPrefix := true)
      else d
    else d
  }

  /** The domain attribute: refused unless the requested host lies within it. */
  function SetDomain(d: Draft, what: string, isIp: string -> bool): Option<Draft>
  {
    var w := if what != "" && what[0] == '.' then what[1..] else what;
    var host := if BadDomain(w) then Some(":") else d.host;
    var ip := isIp(if host.Some? then host.value else w);
    if host.None? || (ip && w == host.value) || (!ip && TailMatch(w, host.value)) then
      Some(d.(host := host, cookie := d.cookie.(domain := Some(w), tailmatch := !ip || d.cookie.tailmatch)))
    else
      None
  }

  /** A pair after the first one that carries content, or an equals sign. */
  function SetAttr(d: Draft, a: Attr, isIp: string -> bool): Option<Draft>
  {
    if CaseEq("path", a.name) then
      Some(d.(cookie := d.cookie.(path := Some(a.what), spath := Some(Sanitize(a.what)))))
    else if CaseEq("domain", a.name) && a.what != "" then SetDomain(d, a.what, isIp)
    else if CaseEq("version", a.name) then Some(d)
    else if CaseEq("max-age", a.name) then Some(d.(maxAge := Some(a.what)))
    else if CaseEq("expires", a.name) then Some(d.(expireStr := Some(a.what)))
    else Some(d)
  }

  /** One pair; None when the whole line is bad. */
  function Step(d0: Draft, a: Attr, r: Request, running: bool): Option<Draft>
  {
    if TAB in a.what then None else
    var d := NotePrefix(d0, a.name);
    if !d.named then
      if !a.sep || InvalidOctets(a.what) || InvalidOctets(a.name) then None
      else Some(d.(named := true, cookie := d.cookie.(name := a.name, value := a.what)))
    else if a.what == "" then
      if CaseEq("secure", a.name) then
        if r.secure || !running then Some(d.(cookie := d.cookie.(secure := true))) else None
      else if CaseEq("httponly", a.name) then Some(d.(cookie := d.cookie.(httponly := true)))
      else if a.sep then SetAttr(d, a, r.isIp)
      else Some(d)
    else SetAttr(d, a, r.isIp)
  }

  function Steps(d: Draft, attrs: seq<Attr>, r: Request, running: bool): Option<Draft>
    decreases |attrs|
  {
    if attrs == [] then Some(d) else
    var next := Step(d, attrs[0], r, running);
    if next.None? then None else Steps(next.value, attrs[1..], r, running)
  }

  /** The absolute expiry time from max-age, else from expires, else none. */
  function Expiry(d: Draft, r: Request): int
  {
    if d.maxAge.Some? then
      var m := d.maxAge.value;
      match ToOffT(if m != "" && m[0] == '"' then m[1..] else m)
      case Overflow => OFF_MAX
      case Invalid => 1
      case Ok(v) => if v == 0 then 1 else if OFF_MAX - r.now < v then OFF_MAX else v + r.now
    else if d.expireStr.Some? then
      var t := r.date(d.expireStr.value);
      if t == 0 then 1 else if t < 0 then 0 else t
    else 0
  }

  /** The request path up to and including its last slash, not looking into the query. */
  function DefaultPath(path: string): Option<string>
  {
    var slash := FindLast(path, '/', Find(path, '?'));
    if slash < 0 then None else Some(path[..slash + 1])
  }

  /** The end of the line: expiry time, default domain and default path. */
  function Finish(d: Draft, r: Request): Parsed
  {
    var path := if d.cookie.path.None? && r.path.Some? then DefaultPath(r.path.value) else None;
    var c := d.cookie.(expires := Expiry(d, r), domain := if d.cookie.domain.Some? then d.cookie.domain else d.host);
    Parsed(if path.None? then c else c.(path := path, spath := Some(Sanitize(path.value))),
           d.securePrefix, d.hostPrefix)
  }

  function ParseHeader(attrs: seq<Attr>, r: Request, running: bool): Option<Parsed>
  {
    var end := Steps(Draft(false, BLANK_COOKIE, false, false, r.host, None, None), attrs, r, running);
    if end.None? || !end.value.named then None else Some(Finish(end.value, r))
  }

  // ---------- Netscape cookie file lines ----------

  /** The maximal runs of bytes other than TAB. */
  function Tokens(s: string): seq<string>
    decreases |s|
  {
    if s == "" then [] else
    if s[0] == TAB then Tokens(s[1..]) else
    var k := Find(s, TAB);
    [s[..k]] + Tokens(s[k..])
  }

  const HTTPONLY_PREAMBLE := "#HttpOnly_"

  /** The fields from the secure flag on: secure, expires, name and perhaps a value. */
  function TailFields(c: Cookie, f: seq<string>, secure: bool, running: bool): Option<Parsed>
  {
    if |f| != 3 && |f| != 4 then None else
    var expires := ToOffT(f[1]);
    if expires.Ok? && (CaseEq(f[0], "TRUE") ==> secure || running) then
      Some(Parsed(c.(secure := CaseEq(f[0], "TRUE"), expires := expires.value, name := f[2],
                     value := if |f| == 4 then f[3] else ""),
                  HasSecurePrefix(f[2]), !HasSecurePrefix(f[2]) && HasHostPrefix(f[2])))
    else None
  }

  function Fields(f: seq<string>, httponly: bool, secure: bool, running: bool): Option<Parsed>
  {
    if |f| < 3 || f[0] == "" then None else
    var c := BLANK_COOKIE.(domain := Some(if f[0][0] == '.' then f[0][1..] else f[0]),
                           tailmatch := CaseEq(f[1], "TRUE"), httponly := httponly);
    if f[2] == "TRUE" || f[2] == "FALSE" then
      TailFields(c.(path := Some("/"), spath := Some("/")), f[2..], secure, running)
    else
      TailFields(c.(path := Some(f[2]), spath := Some(Sanitize(f[2]))), f[3..], secure, running)
  }

  /** `s` up to the first `c`. */
  function Cut(s: string, c: char): string
  {
    s[..Find(s, c)]
  }

  function ParseNetscape(line: string, secure: bool, running: bool): Option<Parsed>
  {
    var httponly := HTTPONLY_PREAMBLE <= line;
    var s := if httponly then line[10..] else line;
    if s != "" && s[0] == '#' then None
    else Fields(Tokens(Cut(Cut(s, '\r'), '\n')), httponly, secure, running)
  }

  // ---------- printing ----------

  function Itoa(n: nat): string
  {
    (if n < 10 then "" else Itoa(n / 10)) + [(n % 10 + '0' as int) as char]
  }

  function Join(f: seq<string>): string
  {
    if f == [] then "" else if |f| == 1 then f[0] else f[0] + [TAB] + Join(f[1..])
  }

  function Bool(b: bool): string
  {
    if b then "TRUE" else "FALSE"
  }

  /** The domain field: with a dot in front when the cookie tail-matches. */
  function DomainField(c: Cookie): string
  {
    if c.domain.None? then "unknown"
    else if c.tailmatch && (c.domain.value == "" || c.domain.value[0] != '.') then "." + c.domain.value
    else c.domain.value
  }

  function PathField(c: Cookie): string
  {
    if c.path.Some? then c.path.value else "/"
  }

  function NetscapeFields(c: Cookie): seq<string>
    requires c.expires >= 0
  {
    [DomainField(c), Bool(c.tailmatch), PathField(c), Bool(c.secure), Itoa(c.expires), c.name, c.value]
  }

  function NetscapeFormat(c: Cookie): string
    requires c.expires >= 0
  {
    (if c.httponly then HTTPONLY_PREAMBLE else "") + Join(NetscapeFields(c))
  }

  // ---------- what may enter a jar ----------

  /** The rules for names with a reserved prefix. */
  predicate PrefixRules(p: Parsed)
  {
    && (p.securePrefix ==> p.cookie.secure)
    && (p.hostPrefix ==> p.cookie.secure && p.cookie.path == Some("/") && !p.cookie.tailmatch)
  }
}
