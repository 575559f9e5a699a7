# Verified models of libcurl internals

A Dafny project that models ten parts of the vendored libcurl and proves what they promise. Values first: what an operation does is a function on a value (a jar of cookies, a connection, a stream of bytes), and the hard properties are lemmas about those functions and about whole runs of them. Where the C code changes things in place - linked chains, slots, buffers, objects with back pointers, loops over arrays - methods and classes with the same loops and branches are proved against those functions. `dafny verify dfyconfig.toml` checks everything.

| part | files | what is proved |
|---|---|---|
| cookie jar, `cookie.c` | CString, CookieMatch, CookieParse, CookieJar, CookieInvariant, CookieLines, CookieRuns, CookieLookup, CookieAnswers, CookieFormats, CookieOrder, CookieFile, CookieRules, CookieStore | what a Set-Cookie line makes, which cookies an add, a sweep and a lookup touch, all in plain terms; the one-bucket index agrees with a full scan exactly for indexable cookies; the jar invariant over every run; secure cookies survive insecure headers; printed lines load again; the linked chains implement all of it |
| Happy Eyeballs, `connect.c` | Connect, ConnectSafety, ConnectLog, ConnectOrder, ConnectOutcome, ConnectData | a connection is won exactly by a socket that became writable without an error; sockets are conserved in every state of every run; whatever the outcome of attempts, which address comes next, when one is tried twice, when giving up is early and when a run stalls |
| wildcard matcher, `curl_fnmatch.c` | Fnmatch, FnmatchSets, FnmatchClasses | matches exactly the declarative relation up to two star groups; sets are read exactly as they are written, and when they mean the union of what they list |
| gzip header, `content_encoding.c` | GzipHeader, GzipWriter, GzipBytes, ZlibWriter | accepts exactly the headers of RFC 1952; however the stream is cut, inflate gets exactly the bytes after the header |
| resolver thread, `asyn-thread.c` | ResolverThread | in every interleaving everything is released exactly once, by whoever is last; what becomes of the address list; the one access that can come too late |
| DNS over HTTPS codec, `doh.c` | DohName, DohEncode, DohDecode, DohMessage, DohWire, DohEntry | names and queries read back; the decoder accepts exactly the serialized responses and inverts the serializer |
| FILETIME, `curl_ntlm_core.c` | FileTime | 32-bit words hold the 64-bit product for every 32-bit time |
| connection cache, `conncache.c` | ConnBundles, ConnRules, ConnCache | counters, back pointers and bundles agree after every run; the oldest is extracted; walks visit each connection once; closing everything ends |
| SASL, `curl_sasl.c` | Sasl, SaslDialogs, SaslObject | the state of every dialog at every reply; no mechanism twice, fall back ends, success only on the final code |
| Base64, `base64.c` | Base64, Base64Bits, Base64Loops | both round trips with their exact conditions, the exact accepted set, and both directions bit by bit |

`Bytes` holds the byte type the byte-level parts share. `CString` holds options and the case-insensitive string functions.

The environment is a parameter everywhere: the clock, the outcome of system calls, of polls and of attempts (a function from the attempt's number), the verdict of inflate on the bytes so far, the date parser, whether a name is an IP number. The build modelled has IPv6, no public suffix library, a 64-bit `curl_off_t`, an old zlib, `getaddrinfo` threads with a socket pair, and all SASL mechanisms.

## What the proofs found

- The bucket index is exact only for indexable cookies (`CookieMatch.BucketIsEnoughExactly`): for a null domain, a tail-matching domain without a dot, or a tail-matching IP number in the wrong bucket there is always a matching host that looks elsewhere (`CookieMatch.MissedHost`).
- The path `/` sanitizes to the empty path, while the path invented for a line without one stays `/`; the two match the same requests (`CookieRuns.ReloadedPathAllowsTheSame`) but are different identities, so such a cookie is not replaced by its own saved copy (`CookieRuns.SavedRootIsNotReplaced`, exactly when: `CookieRuns.ReloadedReplacesExactly`).
- A third star group is never matched (`Fnmatch.ThirdGroupIsMissed`). Of the classes a set names only the first in a fixed order is consulted, so a set is the union of what it lists exactly when that class holds what the others hold (`Fnmatch.SetIsUnionExactly`); `[[:digit:][:upper:]]` is not (`FnmatchSets.TwoClassesAreNotUnion`).
- Only an attempt that reports success without a socket can leave a connection with nothing pending until the overall timeout (`ConnectOrder.StillTryingExactly`), and as the first attempt it always does (`ConnectOrder.OkWithoutSocketStalls`).
- An attempt that ends in another code than CURLE_COULDNT_CONNECT stops `trynextip` on its address: the second family may then try that address twice (`ConnectOrder.SecondTryHappens`), and either family may leave addresses untried (`ConnectOrder.GivesUpExactly`). The first loop goes on after every code, so there other codes are harmless.
- An address list is lost, neither freed nor owned, exactly when the name was resolved, the byte that wakes the parent could not be written, and the parent collected the result: the callback takes the list only with a success status, and the field is cleared anyway (`ResolverThread.ListHasOneEnd`, `ResolverThread.FailedWakeLosesTheList`).
- The parent reads the thread handle out of the shared data after it has given up the mutex; a thread that leaves in between has freed that data (`ResolverThread.DetachComesTooLate`), and this is the only access that can come too late (`ResolverThread.OnlyDetachIsTooLate`).
- `check_gzip_header` does not move its pointer past the NUL of a comment; that is harmless, because only the remaining length is used after it (`GzipHeader.CheckGzipHeader`).
- The rule that protects a secure cookie compares paths as texts: one for `/login` also keeps out one for `/loginhelper`, although the comment at `curl/lib/cookie.c:1097` says it does not (`CookieRules.OverlayRule`).
- Mutual authentication is never asked for in GSSAPI, so the state SASL_GSSAPI_NO_DATA is not reached (`SaslDialogs.FollowsTheScript`).
- Continuing a stopped SASL exchange with the continuation code reports OK and DONE; from every other state that takes the final code (`Sasl.SuccessIsEarned`).

## Model

| member | source | states |
|---|---|---|
| `CookieMatch.CookieHashDomain` | curl/lib/cookie.c:258-269 | The loop returns the bucket of the first `len` bytes: the fold of `(h + (h << 5)) ^ upper(byte)` from 5381 in 64-bit wrap-around arithmetic with sign-extended bytes, modulo 256. |
| `CookieMatch.TailMatchSameTop` | curl/lib/cookie.c:125-248 | A host that tail-matches a cookie domain with a dot in it has the same top domain as the cookie, up to letter case. |
| `CookieMatch.CaseEqSameBucket` | curl/lib/cookie.c:258-288 | Domains equal up to case are filed in the same bucket. |
| `CookieMatch.IndexableFindsHost` | curl/lib/cookie.c:278-288 | A host that matches an indexable cookie (a domain; and, when it tail-matches, a dot in it and the bucket of its top domain) is looked up in the cookie's own bucket. |
| `CookieMatch.MissedHost` | curl/lib/cookie.c:278-288 | For every cookie that is not indexable there is a host that matches it and looks in another bucket. |
| `CookieMatch.BucketIsEnoughExactly` | curl/lib/cookie.c:1423-1461 | The index agrees with a plain list for a cookie - every matching host looks in the cookie's bucket - if and only if the cookie is indexable. |
| `CookieLines.HeaderCookie` | curl/lib/cookie.c:521-1005 | A cookie read from a header line that passes the name-prefix rules is well formed (expiry in range, a name, prefix rules by name, sanitized path of its path), and over an insecure connection is never secure. |
| `CookieLines.NetscapeCookie` | curl/lib/cookie.c:889-1025 | A cookie read from a Netscape line that passes the prefix rules is well formed in the same sense. |
| `CookieLines.TokensOfJoin` | curl/lib/cookie.c:918-1003 | Splitting a line of joined fields on TAB gives the fields back except the empty ones. |
| `CookieLines.PrintedNumber` | curl/lib/cookie.c:978-981 | A printed expiry time of at most 63 bits reads back as the same number. |
| `CookieLines.NetscapeRoundTrip` | curl/lib/cookie.c:1629-1653 | Loading the printed line of a printable cookie restores domain, tailmatch, path, secure, httponly, expires, name and value (an absent or empty path as `/`) if and only if the domain does not start with a dot, nor with `#` unless it tail-matches, and the path is neither TRUE nor FALSE. |
| `CookieInvariant.MinExpiryAllBound` | curl/lib/cookie.c:401-426 | The watermark measured by a sweep is at most every non-zero expiry time in the jar. |
| `CookieInvariant.ShortcutIsFullSweep` | curl/lib/cookie.c:380-427 | In every jar that satisfies the invariant, leaving `remove_expired` early leaves the same chains and the same count as sweeping all of them. |
| `CookieInvariant.FullSweepKeepsInv` | curl/lib/cookie.c:401-426 | The full sweep keeps the jar invariant. |
| `CookieInvariant.ClearSessionKeepsInv` | curl/lib/cookie.c:1570-1604 | Dropping session cookies keeps the jar invariant. |
| `CookieInvariant.PlaceApart` | curl/lib/cookie.c:1074-1202 | Replacing or appending under the code's rules leaves no two cookies of a chain with one identity or one creation time. |
| `CookieInvariant.SameIdentityIsEquivalence` | curl/lib/cookie.c:1130-1158 | Being replaced by (name, domain, tailmatch and sanitized path, as the code compares them) is symmetric and transitive and does not look at creation times. |
| `CookieInvariant.StoreKeepsInv` | curl/lib/cookie.c:1074-1209 | Storing a cookie with a fresh creation time keeps the invariant: bucket, identity, times, count and watermark. |
| `CookieInvariant.AddParsedKeepsInv` | curl/lib/cookie.c:1007-1212 | The whole of `Curl_cookie_add` after parsing keeps the invariant. |
| `CookieRuns.RunKeepsInv` | curl/lib/cookie.c:477-1212 | Every sequence of adds from headers (received, or read from a file without a sweep) and file lines, sweeps, session clears, clears and mode changes keeps the invariant. |
| `CookieRuns.NoTwoAlike` | curl/lib/cookie.c:1074-1202 | In every reachable jar two cookies at different places, in any buckets, differ in identity and in creation time, and each stands in the bucket of its domain. |
| `CookieRuns.AddTouchesOnlyTheReplaced` | curl/lib/cookie.c:1034-1202 | An add leaves the unexpired cookies of every chain in their places and unchanged, except that the new cookie takes the place and the creation time of one of its identity that the overlay rule does not protect, or goes to the end of its chain. A line that is turned away changes nothing. |
| `CookieRuns.SecureOverlaysItsTwin` | curl/lib/cookie.c:1098-1128 | A secure cookie with a path is protected by the overlay rule from every non-secure cookie of its identity that comes over an insecure connection. |
| `CookieRuns.SecureCookieSurvives` | curl/lib/cookie.c:1074-1186 | Over any run of header cookies from insecure connections, with lookups, saves and session clears in between, a secure cookie with a path stays in the jar, unchanged, as long as it has not expired. |
| `CookieRuns.ReloadedPathAllowsTheSame` | curl/lib/cookie.c:293-323 | A stored cookie and its reloaded form allow the same request paths, although their sanitized paths may differ (`/` sanitizes to the empty path). |
| `CookieRuns.ReloadedReplacesExactly` | curl/lib/cookie.c:1130-1158 | A stored cookie is replaced by its own saved copy if and only if it has a path and, when that path is `/`, an empty sanitized path. |
| `CookieRuns.SavedRootIsNotReplaced` | curl/lib/cookie.c:946-964 | A cookie loaded from a line without a path, whose path and sanitized path are `/`, stands beside its own saved copy, which has the empty sanitized path. |
| `CookieRuns.SavedCookieLoads` | curl/lib/cookie.c:1007-1034 | A cookie of a reachable jar, printed and loaded again, is never refused by the prefix rules or the session rule and allows the same request paths. |
| `CookieLookup.BeforeIsStrictTotal` | curl/lib/cookie.c:1335-1364 | The comparison handed to qsort is a strict total order on cookies with different creation times. |
| `CookieLookup.OrderIsUnique` | curl/lib/cookie.c:1500-1513 | Any two orderings of the same cookies by this comparison are equal, so the result does not depend on the sorting algorithm. |
| `CookieLookup.SortedIgnoresArrival` | curl/lib/cookie.c:1489-1513 | The sorted result does not depend on the order in which the cookies were collected. |
| `CookieLookup.LookupIsFullScan` | curl/lib/cookie.c:1423-1525 | When every cookie is indexable, looking in the host's one bucket returns exactly the unexpired matching cookies of all 256 buckets (the first 150 of them), in strict order. |
| `CookieAnswers.HostRule` | curl/lib/cookie.c:1449-1453 | A cookie without a domain is sent to every host, one for a single host or for a numeric host to the hosts of that spelling, up to letter case, one that tail-matches to its domain and to names that end in a dot and its domain. |
| `CookieAnswers.PathRule` | curl/lib/cookie.c:155-225 | Written out in slashes and queries: a cookie whose sanitized path `s` is absent or one byte long is sent with every request; any other if and only if the part of the request before its `?` is `s` or starts with `s` and a slash, where a part that does not start with a slash counts as `/`. |
| `CookieAnswers.LookupSends` | curl/lib/cookie.c:1423-1531 | For a jar of indexable cookies: what a lookup returns are unexpired cookies of the jar, each once, that are to be sent for this host, path and protocol in the terms of the two rules above, and all of them unless 150 are returned. |
| `CookieAnswers.LookupSorts` | curl/lib/cookie.c:1335-1364 | In every jar: of two cookies returned, the one in front has the longer path, or among equals the longer domain, then the longer name, then the later creation time. |
| `CookieFormats.DomainRule` | curl/lib/cookie.c:674-725 | A domain attribute with content is accepted if and only if the requested host lies within it: the same name up to case, a name below it with a dot between, for a numeric host the very same text; a domain without an inner dot that is not localhost is refused. The cookie gets the domain without its leading dot. |
| `CookieFormats.ExpiryRule` | curl/lib/cookie.c:768-819 | `Max-Age` wins over `Expires`: zero expires at once, a positive number that many seconds from now but no later than the largest time; a date is taken as it is, the epoch itself one second later, and a date that cannot be read makes a session cookie. |
| `CookieFormats.MaxAgeRule` | curl/lib/cookie.c:771-796 | Any `Max-Age` text: one quote, then blanks, then a plus sign are skipped; without a digit there, or for zero, the cookie expires at once, else after that many seconds, at the largest time if the sum is larger. |
| `CookieFormats.HeaderReads` | curl/lib/cookie.c:521-876 | A Set-Cookie line, given by what it wishes for, is read if and only if it is well made and the requested host lies within the domain it asks for; then it makes exactly the cookie asked for, every field of it, and notices its reserved name prefix. |
| `CookieOrder.ReadsInAnyOrder` | curl/lib/cookie.c:602-815 | Whatever the order of its attributes, a Set-Cookie line makes the same cookie, or is turned away, alike. |
| `CookieFile.FileLineReads` | curl/lib/cookie.c:889-1005 | A line of a cookie file, given by what its fields say, with any end of line and whatever follows it, makes exactly the cookie meant, every field of it, with or without the preamble, a path and a value; it is turned away if and only if it asks for a secure cookie where none may be made or its time has more than 63 bits. |
| `CookieFile.FieldCountRule` | curl/lib/cookie.c:988-1005 | A line whose fields, a missing path counted in, are not six or seven is turned away. |
| `CookieFile.CommentRule` | curl/lib/cookie.c:884-898 | A line that starts with `#`, apart from the preamble or after it, is turned away. |
| `CookieRules.HashRule` | curl/lib/cookie.c:258-269 | The bucket of a text byte by byte: 5 for nothing, and with one byte more 33 times the bucket, xor that byte in upper case, modulo 256. |
| `CookieRules.TopRule` | curl/lib/cookie.c:227-248 | The top domain is the last two labels, or the whole domain if it has no more. |
| `CookieRules.BucketRule` | curl/lib/cookie.c:278-288 | There are 256 chains; a cookie without a domain or for an IP number is in the first, any other in the bucket of its top domain. |
| `CookieRules.SanitizeRule` | curl/lib/cookie.c:293-323 | A path is taken without one pair of quotes; a relative or empty one stands for `/`, and one slash at the end is dropped. |
| `CookieRules.DefaultPathRule` | curl/lib/cookie.c:829-862 | Without a path attribute the cookie gets the directory of the request, up to and including its last slash before the `?`, and none if there is no slash. |
| `CookieRules.LineRule` | curl/lib/cookie.c:1629-1653 | The printed line is, after `#HttpOnly_` if need be, seven fields with tabs between them: domain, with a dot in front if it tail-matches, TRUE or FALSE, path, TRUE or FALSE for secure, decimal expiry time, name, value. |
| `CookieRules.OverlayRule` | curl/lib/cookie.c:1080-1128 | A secure cookie refuses a non-secure one over an insecure connection, alike in name and domain, whose path begins, as a text and up to case, with its own first directory. |
| `CookieRules.AdmissionRule` | curl/lib/cookie.c:1008-1034 | A line that was read may enter if and only if `__Secure-` comes with secure, `__Host-` with secure, the path `/` and no tail-matching, and no session cookie is loaded from a file into a new session. |
| `CookieRules.AddRule` | curl/lib/cookie.c:1034-1212 | A cookie that may enter changes its own chain only: nothing if some cookie there stands against it, else it takes the place and creation time of its twin, else it goes to the end; apart from that chains are swept. |
| `CookieRules.SweepRule` | curl/lib/cookie.c:380-427 | A sweep drops exactly the cookies whose expiry time is over. |
| `CookieRules.ClearRule` | curl/lib/cookie.c:1538-1604 | Ending the session drops exactly the cookies without an expiry time, clearing drops all. |
| `CookieStore.Unlink` | curl/lib/cookie.c:405-416 | Unlinking after `pv`, or at the head, leaves a chain that visits the other nodes in order. |
| `CookieStore.SweepChain` | curl/lib/cookie.c:401-426 | The pointer walk over one chain relinks it to exactly the unexpired nodes in order, counts those removed and lowers the watermark for those kept. |
| `CookieStore.UnlinkSession` | curl/lib/cookie.c:1585-1594 | The unlinking of `Curl_cookie_clearsess`, in which `prev` stands on `curr` until a cookie is kept, removes exactly `curr`. |
| `CookieStore.ClearSessionChain` | curl/lib/cookie.c:1580-1602 | The walk relinks a chain to exactly its persistent cookies in order. |
| `CookieStore.RefusesOverlay` | curl/lib/cookie.c:1080-1128 | The nested tests of the overlay rule amount to the predicate `Overlays`. |
| `CookieStore.Replaces` | curl/lib/cookie.c:1130-1158 | The flag `replace_old` amounts to equality of identity. |
| `CookieStore.ScanChain` | curl/lib/cookie.c:1074-1180 | The walk along the chain decides refusal, replacement of the first cookie of that identity, or appending, and finds the last node. |
| `CookieStore.Collect` | curl/lib/cookie.c:1441-1484 | The walk collects the first 150 wanted cookies of a chain, each put in front of the earlier ones. |
| `CookieStore.CookieInfo.RemoveExpired` | curl/lib/cookie.c:380-427 | On linked chains: the new jar is the specified one, early exit, count and watermark included. |
| `CookieStore.CookieInfo.ClearSession` | curl/lib/cookie.c:1570-1604 | On linked chains: the new jar is the specified one. |
| `CookieStore.CookieInfo.ClearAll` | curl/lib/cookie.c:1538-1548 | On linked chains: all chains empty, counter zero, the rest unchanged. |
| `CookieStore.CookieInfo.StoreCookie` | curl/lib/cookie.c:1074-1211 | On linked chains: refuse, overwrite the node in place, or link a node at the end, as specified. |
| `CookieStore.CookieInfo.Add` | curl/lib/cookie.c:1007-1212 | On linked chains: the part of `Curl_cookie_add` after parsing, as specified. |
| `CookieStore.CookieInfo.AddHeader` | curl/lib/cookie.c:521-1212 | Adding a header line is the specified event. |
| `CookieStore.CookieInfo.AddFileLine` | curl/lib/cookie.c:889-1212 | Adding a Netscape line is the specified event. |
| `CookieStore.CookieInfo.GetList` | curl/lib/cookie.c:1423-1531 | The returned list is the specified lookup, and the jar afterwards is the swept one (untouched when the bucket is empty). |
| `ConnectSafety.SingleMoves` | curl/lib/connect.c:1095-1291 | One attempt opens at most one socket, which ends up in the slot or closed. |
| `ConnectSafety.TryNextMoves` | curl/lib/connect.c:581-612 | `trynextip` closes exactly the socket the slot held and leaves the other slot's socket and the connected one alone. |
| `ConnectSafety.WinMoves` | curl/lib/connect.c:868-887 | Winning moves the socket of the slot to the connection, closes the other one and empties both slots. |
| `ConnectSafety.SocketsAreConserved` | curl/lib/connect.c:810-962 | Whatever attempts and polls turn out to be, in every state of every run each opened socket is in exactly one of closed, slot 0, slot 1 and connected, none is closed twice, and a winner is the only open one. |
| `ConnectLog.RepeatsAreRetries` | curl/lib/connect.c:581-612 | In a log in which each attempt is the due one, an address occurs twice if and only if some attempt is a retry: its slot's attempt before ended in a code that `trynextip` stops at. |
| `ConnectLog.OrderWithoutRetries` | curl/lib/connect.c:566-577 | A slot that does not retry has tried the addresses of its family in list order without a gap. |
| `ConnectOrder.TryFromWalks` | curl/lib/connect.c:596-606 | However attempts end, the loop of `trynextip` tries due addresses only, and leaves a pending socket, the family used up, or the slot stuck on an address. |
| `ConnectOrder.HostLoopWalks` | curl/lib/connect.c:1355-1362 | The loop of the start goes on after every failure code, so a family it gets no socket from is used up. |
| `ConnectOrder.IsConnectedIsAfter` | curl/lib/connect.c:805-962 | One call of `is_connected`, however attempts end: due addresses only; with nothing pending afterwards the last attempt reported CURLE_OK without a socket; giving up means each slot is at the end of its family or stuck. |
| `ConnectOrder.EveryAttemptIsDue` | curl/lib/connect.c:566-1370 | Over every run on the first socket, however attempts end: each attempt is on the first address of its slot's family, the next one after the slot's last, or that one again after an outcome `trynextip` stops at; only the second slot retries, never twice in a row. |
| `ConnectOrder.TriedTwiceExactly` | curl/lib/connect.c:566-1370 | An address is tried twice if and only if some attempt is a retry; the first slot always tries its family in list order without a gap, and so does the second if it does not retry. |
| `ConnectOrder.SecondTryHappens` | curl/lib/connect.c:944-962 | The run in which the only IPv6 address is tried twice: the timer's attempt ends in another code than CURLE_COULDNT_CONNECT, the IPv4 address fails, and the last resort finds the slot still standing on it. |
| `ConnectOrder.GivesUpExactly` | curl/lib/connect.c:944-962 | When a run ends for want of addresses, all addresses of a slot's family were tried if and only if the slot's last attempt was not one `trynextip` stops at with addresses of the family left. |
| `ConnectOrder.StillTryingExactly` | curl/lib/connect.c:805-962 | A run that still goes on has no pending socket if and only if its last attempt reported CURLE_OK without a socket and the other slot has none. |
| `ConnectOrder.EveryAddressOnceInOrder` | curl/lib/connect.c:566-1370 | When every attempt leaves a pending socket or gives CURLE_COULDNT_CONNECT: over every run on the first socket no address is tried twice, each family is tried in list order without a gap, giving up for want of addresses means every address of both families was tried, and a run still going on has a pending socket. |
| `ConnectOrder.AttemptsAreBounded` | curl/lib/connect.c:566-612 | However attempts end, no run makes more than one attempt for each address of the first slot's family and two for each of the second's; without a repeat, not more than there are addresses. |
| `ConnectOrder.StalledStays` | curl/lib/connect.c:930-962 | With no socket pending between calls, every further call leaves everything as it is until the overall timeout. |
| `ConnectOrder.OkWithoutSocketStalls` | curl/lib/connect.c:1122-1129 | For every list, both sockets and every run within the timeout: when the first attempt reports CURLE_OK without a socket (its address could not be printed), no other address is tried and the run goes on with nothing pending. |
| `ConnectOutcome.StartRule` | curl/lib/connect.c:1310-1345 | Families, first addresses and time limits of the two slots, in the numbers of the address families. |
| `ConnectOutcome.SlotWins` | curl/lib/connect.c:867-887 | With a socket pending in the slot, its round wins if and only if the poll says writable without an error; no other round does. |
| `ConnectOutcome.CallWins` | curl/lib/connect.c:810-962 | One call is won if and only if slot 0's pending socket, or then the one slot 1 holds after slot 0's round, is writable without an error; exactly that socket is connected. |
| `ConnectOutcome.CallTimesOut` | curl/lib/connect.c:810-816 | A call that is not won ends by the overall timeout if and only if no time is left. |
| `ConnectOutcome.SlotWaits` | curl/lib/connect.c:845-865 | A pending socket that neither wins nor fails, with time left for its address, stays pending and nothing is tried for its slot. |
| `ConnectOutcome.SlotGivesUp` | curl/lib/connect.c:889-930 | One that fails is closed and its slot moves on, with all the time left for the last address of the list and half of it for others. |
| `ConnectOutcome.ConnectionWins` | curl/lib/connect.c:805-1370 | Over every run, on either socket: it is won if and only if some call before the end had a pending socket that was writable without an error, and that socket is the one connected. |
| `ConnectOutcome.FailureIsExplained` | curl/lib/connect.c:944-1370 | A connection that gives up reports CURLE_COULDNT_CONNECT or the code of one of its own attempts, and never success. |
| `ConnectOutcome.AttemptsOpenSockets` | curl/lib/connect.c:1095-1291 | Over every run as many sockets are opened as there are attempts that open one: those still connecting, and those that failed after opening it. |
| `ConnectData.ConnectData.Ainext` | curl/lib/connect.c:566-577 | The loop over the list, in place, is the specified step to the next address of the family. |
| `ConnectData.ConnectData.TryNextIp` | curl/lib/connect.c:581-612 | The loop, in place, is the specified one; the old socket is closed after the new one was opened. |
| `ConnectData.ConnectData.ConnectHost` | curl/lib/connect.c:1299-1370 | Families, slots, times and the two loops of the start are as specified. |
| `ConnectData.ConnectData.RunToEnd` | curl/lib/connect.c:805-1370 | A whole connection on the object, start and one call for each event: it is won if and only if a pending socket was writable without an error, and by that socket; every opened socket is in one place, only a winner is connected and it is the only one open, each attempt was the due one, and what is still going without a pending socket is stalled by an attempt that reported CURLE_OK without one. |
| `Fnmatch.OneClassIsUnion` | curl/lib/curl_fnmatch.c:309-333 | A set that names at most one `[:class:]` means the union of its bytes and that class, negated or not. |
| `Fnmatch.SetIsUnionExactly` | curl/lib/curl_fnmatch.c:309-333 | A set means the union of what it lists, for all bytes, if and only if the first class in the chain of tests holds every byte that one of its classes holds and that is not listed itself. |
| `Fnmatch.ParseKeyword` | curl/lib/curl_fnmatch.c:74-128 | The state machine over a ten-byte buffer accepts exactly a known lower-case keyword followed by `:]` and sets its flag; which bytes each keyword stands for is `FnmatchClasses.ClassPattern`. |
| `Fnmatch.SetCharOrRange` | curl/lib/curl_fnmatch.c:143-162 | The array gets the byte, or the whole range when both ends are in one class of letters or digits and in order. |
| `Fnmatch.SetCharset` | curl/lib/curl_fnmatch.c:165-255 | The array and the place of the closing bracket are those of the set at that place of the pattern, which `FnmatchSets.ReadsExactlySets` characterises. |
| `FnmatchSets.ReadsExactlySets` | curl/lib/curl_fnmatch.c:165-255 | A set is accepted, with its closing bracket at a place and these flags, if and only if the text up to that bracket spells a set (negation, listed closing bracket first, bytes, escaped bytes, ranges within one class, class names) whose flags they are. |
| `FnmatchSets.FlagsMeanTheSet` | curl/lib/curl_fnmatch.c:165-255 | The flags read mean the union of the elements of the set, or all bytes but those when it is negated; the classes are those of `FnmatchClasses.ClassPattern`. |
| `FnmatchSets.PrintedSetIsRead` | curl/lib/curl_fnmatch.c:165-255 | Any set of escaped bytes, ranges and classes, printed anywhere in a pattern, is read back whole: its closing bracket is found and its flags mean the union of its elements or all other bytes. |
| `FnmatchSets.MatcherReadsTheSet` | curl/lib/curl_fnmatch.c:297-340 | For a spelled set the matcher accepts exactly the bytes the set means if and only if the first class it consults holds every byte of the others that is not listed. |
| `FnmatchSets.TwoClassesAreNotUnion` | curl/lib/curl_fnmatch.c:309-330 | The pattern `[[:digit:][:upper:]]`, whose set contains the upper-case letters, does not match one. |
| `FnmatchClasses.ClassPattern` | curl/lib/curl_fnmatch.c:105-126 | For each of the ten class names, `[[:name:]]` matches a string of one byte if and only if that byte is in the class, the ten classes being given as byte numbers. |
| `FnmatchClasses.OnlyTheseWords` | curl/lib/curl_fnmatch.c:105-126 | There are no other class names. |
| `FnmatchClasses.PatternMatches` | curl/lib/curl_fnmatch.c:257-374 | A pattern printed from pieces - a byte, an escaped byte, `?`, `*`, or a set - stands for exactly the strings its pieces describe. |
| `FnmatchClasses.PatternGroups` | curl/lib/curl_fnmatch.c:268-282 | The star groups of a printed pattern are its runs of stars and question marks that start with a star. |
| `FnmatchClasses.MatchPrinted` | curl/lib/curl_fnmatch.c:377-382 | `Curl_fnmatch` on a printed pattern finds a match if and only if its pieces describe the string, with the stars in at most two groups. |
| `FnmatchClasses.BadSetMatchesNothing` | curl/lib/curl_fnmatch.c:336-340 | A pattern at whose first set the set parser fails matches nothing from there on. |
| `FnmatchClasses.PlainPattern` | curl/lib/curl_fnmatch.c:340-374 | A pattern without `*`, `?`, `[` and the backslash matches itself and nothing else. |
| `Fnmatch.StarStar` | curl/lib/curl_fnmatch.c:268-282 | A star directly after a star changes nothing of what is matched. |
| `Fnmatch.StarAny` | curl/lib/curl_fnmatch.c:276-279 | A question mark after a star can be matched before it. |
| `Fnmatch.Regroup` | curl/lib/curl_fnmatch.c:273-282 | Regrouping keeps the meaning of the rest of the pattern and counts one group. |
| `Fnmatch.SuffixSomewhere` | curl/lib/curl_fnmatch.c:284-288 | The rest after a group matches if and only if it matches from some byte before the end. |
| `Fnmatch.Loop` | curl/lib/curl_fnmatch.c:257-350 | Reports a match if and only if the pattern matches the whole string declaratively and has at most `maxstars` star groups. |
| `Fnmatch.CurlFnmatch` | curl/lib/curl_fnmatch.c:355-363 | Exact for patterns with at most two star groups, no match for patterns with more, failure only for a null argument. |
| `Fnmatch.ThirdGroupIsMissed` | curl/lib/curl_fnmatch.c:355-363 | A match that is missed beyond two groups: `*a*b*` and `ab`. |
| `GzipHeader.VerdictIsStable` | curl/lib/content_encoding.c:361-436 | A verdict other than underflow does not change as more bytes arrive, and a header ends within the bytes given. |
| `GzipHeader.HeaderIsEnough` | curl/lib/content_encoding.c:361-436 | A header is recognised from its own bytes alone. |
| `GzipHeader.EndIsPastTheBuffer` | curl/lib/content_encoding.c:510-527 | When earlier bytes were not enough, the header ends strictly after them and within the new bytes. |
| `GzipHeader.AcceptsExactlyHeaders` | curl/lib/content_encoding.c:361-436 | The check returns n if and only if the first n bytes are a member header of section 2.3 of RFC 1952 (with no reserved flag). |
| `GzipHeader.VerdictsMean` | curl/lib/content_encoding.c:361-436 | OK means the bytes start with a header; BAD means there are ten bytes and no continuation starts with a header; underflow means fewer than ten bytes, or no header yet and some continuation that has one. |
| `GzipHeader.SkipText` | curl/lib/content_encoding.c:400-425 | The loop to the NUL finds the end of the text or reports that it is not there. |
| `GzipHeader.CheckGzipHeader` | curl/lib/content_encoding.c:361-436 | The moving pointer and remaining length compute the specified verdict, although the pointer is not advanced past the comment's NUL. |
| `GzipBytes.SkipsExactlyPrinted` | curl/lib/content_encoding.c:361-436 | The check skips n bytes if and only if these are the numbers 31, 139, 8, a flag byte that is the sum of 1, 2, 4, 8 and 16 for the parts present, six bytes, and then the counted extra field, the two terminated texts and the two checksum bytes that are present, in this order. |
| `GzipBytes.FinishedExactlyByMembers` | curl/lib/content_encoding.c:439-565 | A response is finished, with these bytes inflated, if and only if it is such a header, these bytes, which inflate ends at the last of, and eight more, however it was cut. |
| `GzipBytes.FailsExactly` | curl/lib/content_encoding.c:439-565 | A response fails with the encoding error if and only if its first ten bytes are no member's or inflate rejects the bytes after the header, and with the write error if and only if more than eight bytes follow the end of the compressed stream; in no other way. |
| `GzipWriter.OneMoreCall` | curl/lib/content_encoding.c:439-565 | One more call takes the verdict on the bytes so far to the verdict on all of them, and a failure stays. |
| `GzipWriter.ChunksDoNotMatter` | curl/lib/content_encoding.c:439-565 | However a response is cut into calls, error or not, the state, the trailer bytes left and the bytes inflate has consumed depend only on the bytes: inflate gets exactly those after the header. |
| `GzipWriter.FinishedExactly` | curl/lib/content_encoding.c:439-565 | The stream is finished if and only if it was one whole member - a header, a complete compressed stream, eight bytes of trailer - and inflate consumed exactly the compressed part. |
| `ZlibWriter.Writer.ExitZlib` | curl/lib/content_encoding.c:122-136 | The result is handed on and the state is the uninitialised one. |
| `ZlibWriter.Writer.ProcessTrailer` | curl/lib/content_encoding.c:138-160 | Trailer bytes are consumed, an excess is an error, a full trailer ends the stream. |
| `ZlibWriter.Writer.InflateStream` | curl/lib/content_encoding.c:162-262 | The bytes at `next_in` are offered to inflate and what it leaves is trailer; in any other state a write error. |
| `ZlibWriter.Writer.WriteHeader` | curl/lib/content_encoding.c:510-541 | The kept bytes and the new ones are checked again; the pointer computed from the end of this call's bytes lies inside them and is where the compressed stream starts. |
| `ZlibWriter.Writer.Write` | curl/lib/content_encoding.c:439-565 | A call on the object is the specified call on its state. |
| `ResolverThread.InvHolds` | curl/lib/asyn-thread.c:288-615 | The invariant that ties locks, `done`, handles, releases and the address list together holds after every schedule of the two threads. |
| `ResolverThread.OnlyDetachIsTooLate` | curl/lib/asyn-thread.c:288-417 | In every interleaving the thread never touches released data, and a step of the parent does if and only if it is about to detach a thread that has left: the handle is read out of the data after the mutex was released. |
| `ResolverThread.DetachComesTooLate` | curl/lib/asyn-thread.c:311-394 | A schedule in which that happens: the parent cancels while the name is being resolved, and the thread finds `done` set, frees the data and leaves before the parent reads the handle. |
| `ResolverThread.NothingElseReleasedIsTouched` | curl/lib/asyn-thread.c:288-417 | With the handle to detach as a value the parent already holds, no step of either side touches released data, and destroyed synchronization data is touched only by the `free` that follows. |
| `ResolverThread.ReleasedExactlyOnce` | curl/lib/asyn-thread.c:374-417 | The thread data, its synchronization data, the read end and the handle are released at most once, and exactly once when both sides are through. |
| `ResolverThread.WhoeverIsLastReleases` | curl/lib/asyn-thread.c:311-404 | The thread releases the data exactly when the parent set `done` first; a parent that releases it has joined the thread before, or there was none. |
| `ResolverThread.PollTells` | curl/lib/asyn-thread.c:563-616 | What a poll reads as done, when it comes to release the mutex, is whether the thread has left. |
| `ResolverThread.WaitedForIsJoined` | curl/lib/asyn-thread.c:374-564 | When both sides are through, a started thread has been joined or detached, once; joined after every wait, every kill that is not for a quick exit and every poll that ended the resolve; detached only by a cancel or a kill for a quick exit. |
| `ResolverThread.CollectedExactly` | curl/lib/asyn-thread.c:483-616 | When both sides are through, the result has been collected if and only if the last call was a wait that wants it or a poll that read `done` as set; never after a kill, a cancel, a wait just for the end or a failed start. |
| `ResolverThread.ListHasOneEnd` | curl/lib/asyn-thread.c:265-277 | When both sides are through, a list was found exactly when the name was resolved; it was freed if and only if the last call did not ask for it, handed to the callback if and only if the last call asked (a wait that wants it, or a poll that read `done` as set) and the wake-up write had succeeded, and lost if and only if it asked after that write had failed. |
| `ResolverThread.WaitedForListIsGiven` | curl/lib/asyn-thread.c:483-518 | The ordinary run: the name is resolved, the parent waits for it, the callback gets the list, and everything is released. |
| `ResolverThread.FailedWakeLosesTheList` | curl/lib/asyn-thread.c:318-328 | The schedule in which the name is resolved, the wake-up write fails and the parent polls: the list is referred to by nobody. |
| `ResolverThread.CallsReturn` | curl/lib/asyn-thread.c:374-615 | Neither side is ever stuck, and every call in progress is over after at most 22 steps of the two. |
| `ResolverThread.WaitHasAThread` | curl/lib/asyn-thread.c:483-494 | Between calls with a resolve in progress there is a thread to join. |
| `DohName.SkipsTheName` | curl/lib/doh.c:420-442 | A name that stands at an index is skipped to its last byte. |
| `DohName.SkippedIsAName` | curl/lib/doh.c:420-442 | Whatever is skipped is a name: labels of 1 to 63 bytes, then the root or a pointer. |
| `DohName.ReadsWhatIsDenoted` | curl/lib/doh.c:487-537 | A name of fewer steps than the budget and fewer than 256 bytes of text is read whole, pointers followed. |
| `DohName.ReadExactly` | curl/lib/doh.c:487-537 | `store_cname` succeeds if and only if the name has at most 127 labels and pointers before its root and at most 255 bytes of text, and then it stores the labels joined with dots; the budget ends every pointer chain. |
| `DohEncode.LabelsLength` | curl/lib/doh.c:86-112 | Labels and their length bytes are one byte longer than the host without its trailing dot. |
| `DohEncode.JoinLabels` | curl/lib/doh.c:133-154 | Dots put back between the labels of a host give the host without its trailing dot. |
| `DohEncode.LabelsOfJoin` | curl/lib/doh.c:133-154 | The labels of a text made of labels are those labels. |
| `DohEncode.QueryReadsBack` | curl/lib/doh.c:76-171 | Whenever a host can be encoded: the length is the one computed beforehand and at most the buffer's, `skipqname` from offset 12 stops four bytes before the end, and `store_cname` from there gives the host without its trailing dot; neither budget is in the way. |
| `DohEncode.DohEncode` | curl/lib/doh.c:76-171 | The loop writes the specified query inside the length computed beforehand and nothing behind it, and returns the specified error otherwise. |
| `DohWire.QueryBytes` | curl/lib/doh.c:104-171 | A query byte by byte: identifier 0, the bit that asks for recursion, one question; every byte of the host one place further, the length of the next label in place of each dot and in front, a zero at the end; the type, high byte first, and class 1. |
| `DohWire.EncodesExactly` | curl/lib/doh.c:102-143 | A query is made if and only if it has at most 272 bytes, the buffer holds it, and the host has no empty label before its end and no 64 bytes in a row without a dot; the three errors come in that order. |
| `DohWire.NameByteRule` | curl/lib/doh.c:420-537 | What the first byte of a name means to the skipper and to the reader: 0 ends it, 1 to 63 is a label of that length, 192 to 255 the top of a 14-bit offset, 64 to 191 an error. |
| `DohWire.AnswerRule` | curl/lib/doh.c:461-674 | An answer in numbers: types 5, 39 and the one asked for, class 1; the smaller TTL is kept; four bytes of type 1 and sixteen of type 28 are addresses, 24 of them at most; the name of a type 5 record is read while there are fewer than four. |
| `DohWire.CutAnswerRule` | curl/lib/doh.c:627-665 | An answer that is cut off is refused: for its type or class if these are there and wrong, else for the range; its TTL is still kept when only the length is missing. |
| `DohWire.ContentRule` | curl/lib/doh.c:719-726 | A response whose sections fill it is taken if it brought a name or an address, or if its last answer was of type 2. |
| `DohMessage.AnswerIsTaken` | curl/lib/doh.c:627-674 | An answer that stands at an index is taken if and only if its class, type, length and (while there is room) name are acceptable, and then adds its address or name and lowers the TTL. |
| `DohMessage.AfterAllIs` | curl/lib/doh.c:461-485 | Together the answers add their addresses and names in order after the earlier ones, cut at 24 and 4, and the TTL is the smallest seen. |
| `DohMessage.DecodesResponses` | curl/lib/doh.c:592-728 | The decoder inverts the serializer: a serialized response is decoded to OK with exactly those addresses, names and TTL. |
| `DohMessage.DecodedIsAResponse` | curl/lib/doh.c:592-728 | Every message the decoder accepts is a serialized response. |
| `DohMessage.AcceptsExactlyResponses` | curl/lib/doh.c:592-728 | The decoder accepts a message if and only if it is a serialized response with zero ID and RCODE, acceptable answers and something to use. |
| `DohEntry.DohEntry.constructor` | curl/lib/doh.c:582-589 | An empty entry with the largest TTL. |
| `DohEntry.DohEntry.StoreAddress` | curl/lib/doh.c:461-485 | An address is stored while fewer than 24 are there. |
| `DohEntry.DohEntry.ReadName` | curl/lib/doh.c:498-532 | The loop over labels and pointers with its counter gives the specified verdict and buffer. |
| `DohEntry.DohEntry.StoreCname` | curl/lib/doh.c:487-537 | The name goes to the next buffer, and is not read at all when the four are full. |
| `DohEntry.SkipQname` | curl/lib/doh.c:420-442 | The loop returns the specified index or error. |
| `DohEntry.DecodeAnswer` | curl/lib/doh.c:627-674 | One turn of the answer loop is the specified one, partial updates on errors included. |
| `DohEntry.SkipRecords` | curl/lib/doh.c:676-718 | The loops over the other two sections are as specified. |
| `DohEntry.DohDecode` | curl/lib/doh.c:592-728 | The decoder on the entry object is the specified one, for every byte sequence; no read falls outside the message. |
| `FileTime.LowerBytesStay` | curl/lib/curl_ntlm_core.c:543-547 | Adding a product shifted by i bits leaves the bytes below bit i of the low word as they were. |
| `FileTime.ByteIsOriginal` | curl/lib/curl_ntlm_core.c:541-543 | The byte read at bit i is still the byte of the word the loop started with. |
| `FileTime.OneTurn` | curl/lib/curl_ntlm_core.c:541-551 | One turn adds the byte times 9999999 at its place to the 64-bit value, the carry reaching the high word. |
| `FileTime.BiasedWords` | curl/lib/curl_ntlm_core.c:523-536 | After sign extension and the bias the two words hold t + 11644473600. |
| `FileTime.SplitShift` | curl/lib/curl_ntlm_core.c:545-546 | The two right shifts amount to one by 32 - i. |
| `FileTime.MsFiletime.Time2Filetime64` | curl/lib/curl_ntlm_core.c:515-518 | From 1601 on the time can be read back from the two words the wide branch leaves. |
| `FileTime.MsFiletime.Time2Filetime32` | curl/lib/curl_ntlm_core.c:520-553 | For every signed, and every unsigned, 32-bit time the 32-bit branch leaves the low and high words of (t + 11644473600) * 10000000, from which the time can be read back. |
| `FileTime.WordsDetermineTheTime` | curl/lib/curl_ntlm_core.c:513-554 | The time can be computed back from the words, so different times have different words. |
| `ConnBundles.AddKeepsInv` | curl/lib/conncache.c:226-265 | Adding a connection adds it to the bundle of its key, new or not, and nothing else; taking it out again restores the walk; the invariant is kept. |
| `ConnBundles.ExtractLeaves` | curl/lib/conncache.c:454-461 | A connection that leaves the cache leaves the walk through all bundles, and nothing else moves, whether its emptied bundle goes or stays. |
| `ConnBundles.RemoveKeepsInv` | curl/lib/conncache.c:274-299 | Removal and extraction take exactly the connection and keep the invariant. |
| `ConnBundles.BestIsMaximal` | curl/lib/conncache.c:491-515 | The scan ends on the first connection of the highest score above the mark. |
| `ConnBundles.ExtractsTheOldest` | curl/lib/conncache.c:471-526 | Given a score for each connection, what is extracted has the highest one of at least zero; nothing is, exactly when there is none; the bundle stays even if empty. `ConnCache.ConnCache.ExtractOldest` ties the scores to eligibility and idle time. |
| `ConnBundles.Accounting` | curl/lib/conncache.c:226-526 | After every run of adds, removals and extractions `num_conn` is the sum of the bundle sizes, no two bundles have one key, and no connection is in two places. |
| `ConnBundles.EmptyBundlesHappen` | curl/lib/conncache.c:516-522 | Extraction can leave an empty bundle in the cache. |
| `ConnBundles.FirstIsFirst` | curl/lib/conncache.c:358-382 | The first connection is found behind any number of empty bundles, and not found only when there is none. |
| `ConnBundles.CloseAllClosesAll` | curl/lib/conncache.c:528-557 | Closing everything ends, closes each connection once in the order of the walk, and leaves none and a counter of zero. |
| `ConnBundles.VisitMeans` | curl/lib/conncache.c:313-351 | A walk visits the connections in order up to the first at which the callback ends it, and only those the callback removes are gone. |
| `ConnBundles.ForEachVisitsAll` | curl/lib/conncache.c:313-351 | When the callback never ends the walk, each connection is visited exactly once even if it is removed while visited. |
| `ConnRules.AddRule` | curl/lib/conncache.c:226-265 | A connection goes to the end of the bundle of its key, or into a new bundle of its own; all other bundles stay, the counter and the next id go up by one. |
| `ConnRules.LeaveRule` | curl/lib/conncache.c:90-107 | A connection that leaves leaves its bundle only, where the others keep their order; removing takes the bundle away with its last connection, extracting does not. |
| `ConnRules.StrangerRule` | curl/lib/conncache.c:274-299 | A connection in no bundle changes nothing. |
| `ConnCache.ConnectBundle.RemoveConn` | curl/lib/conncache.c:90-107 | The loop removes the first occurrence, lowers the counter and clears the back pointer. |
| `ConnCache.ConnCache.AddConn` | curl/lib/conncache.c:226-265 | On objects: the specified cache, the back pointer to the bundle of the key, the next connection id. |
| `ConnCache.ConnCache.RemoveConn` | curl/lib/conncache.c:274-299 | On objects: the specified cache; a connection in no bundle changes nothing. |
| `ConnCache.ConnCache.ExtractBundle` | curl/lib/conncache.c:424-463 | On objects: what leaves the given bundle is a connection of it that is not in use, of an age of at least zero, and no connection of the bundle that is not in use was last used earlier; none leaves exactly when there is no such connection. |
| `ConnCache.ConnCache.ExtractOldest` | curl/lib/conncache.c:471-526 | On objects: a connection leaves the cache that is not in use, not to be closed and not connect-only, and that none of these was idle longer than; none leaves exactly when there is none of an age of at least zero. |
| `ConnCache.ConnCache.FindFirst` | curl/lib/conncache.c:358-382 | On objects: the specified connection. |
| `ConnCache.ConnCache.CloseAllConnections` | curl/lib/conncache.c:528-557 | On objects: the connections closed are the specified ones, and no connection is left or points to a bundle. |
| `ConnCache.ConnCache.ForEach` | curl/lib/conncache.c:313-351 | On objects, with the iterator and the list pointer moved on before the callback: the connections visited and the cache left are the specified ones even when the callback removes what it is given and its bundle disappears. |
| `Sasl.ChoosesTheFirst` | curl/lib/curl_sasl.c:358-494 | The mechanism chosen is the one of highest security that is enabled on both sides and usable with the credentials; none is chosen exactly when there is none. |
| `Sasl.NoMechanismTwice` | curl/lib/curl_sasl.c:714-719 | In one exchange no mechanism is started twice, only mechanisms enabled on both sides are started, and so there are no more starts than such mechanisms. |
| `Sasl.SuccessIsEarned` | curl/lib/curl_sasl.c:523-750 | OK with DONE is reported if and only if the code is the final code in the FINAL or OAUTH2_RESP state, or the exchange was stopped and the code is the continuation code. |
| `Sasl.GoingOnIsNotStopped` | curl/lib/curl_sasl.c:523-750 | An exchange its caller goes on with is not in the STOP state, and one that is DONE is. |
| `Sasl.ExchangeIsEarned` | curl/lib/curl_sasl.c:523-750 | A whole exchange ends well only on a reply with the server's final code. |
| `Sasl.RepliesAreBounded` | curl/lib/curl_sasl.c:523-750 | An exchange that still goes on after its replies has had at most five for each mechanism the server offers, four more, and one for each further SCRAM round: falling back comes to an end. |
| `SaslDialogs.PicksTheFirst` | curl/lib/curl_sasl.c:358-494 | Of the eleven mechanisms in the order written out, the first is picked that is enabled on both sides, supported by the build where it needs it, and has its credentials: no password for EXTERNAL, a user name for the others, a bearer for the two OAuth ones. |
| `SaslDialogs.StartRule` | curl/lib/curl_sasl.c:496-521 | A start reports the first failure of making the first message (at once only with an initial response, and not for DIGEST-MD5 and CRAM-MD5; for SCRAM always), encoding and sending; a dialog is in progress if and only if a mechanism was picked and nothing failed. |
| `SaslDialogs.FollowsTheScript` | curl/lib/curl_sasl.c:496-709 | Whatever the server replies, a dialog that goes on and is not cancelled is in the state its script lists at that reply: the states of each mechanism are written out, begun one further when the first message went with the command; SCRAM goes round as long as there are tokens. GSSAPI never reaches the state for mutual authentication. |
| `SaslDialogs.ReplyRule` | curl/lib/curl_sasl.c:523-750 | Every reply, by its code and by how making the message turns out: the dialog is denied, ends well, goes on, is cancelled for a message that is not base64, or stops with the error. |
| `SaslDialogs.FallsBack` | curl/lib/curl_sasl.c:714-719 | After a cancelled dialog exactly its mechanism is dropped and the first possible one of the rest is started; without one the exchange is idle. |
| `SaslDialogs.EndsWell` | curl/lib/curl_sasl.c:496-750 | A dialog whose replies all ask for the next message, to the end of its script, and then bring the final code, ends well. |
| `SaslObject.SASL.Choose` | curl/lib/curl_sasl.c:358-494 | The chain of branches sets the candidate of highest security, enabled on both sides and usable, and none exactly when there is no candidate. |
| `SaslObject.SASL.Authenticate` | curl/lib/curl_sasl.c:334-750 | A whole exchange driven on the object, a start and a continuation for each reply while the caller goes on: no mechanism is started twice, and it ends well only in the STOP state and on a reply with the server's final code. |
| `Base64.RoundTrip` | curl/lib/base64.c:74-247 | Decoding undoes encoding for every non-empty byte sequence. |
| `Base64.EncodedLength` | curl/lib/base64.c:186-247 | The encoding has four symbols for every three bytes begun. |
| `Base64.AcceptsExactlyBase64` | curl/lib/base64.c:74-184 | Accepted are exactly the non-empty texts of whole quantums over the alphabet with zero to two `=` at the very end and nowhere else; the length of the data follows. |
| `Base64.EncodesBack` | curl/lib/base64.c:74-247 | Encoding undoes decoding if and only if the unused bits of the last symbol are zero. |
| `Base64Bits.EncodesBits` | curl/lib/base64.c:186-247 | Every three bytes stand as four letters of the alphabet written out, six bits each from the top, missing bits zero and missing letters `=`. |
| `Base64Bits.DecodesBits` | curl/lib/base64.c:74-184 | Every four letters stand for three bytes in the same way, fewer where a letter is `=`. |
| `Base64Bits.AcceptsExactlyLetters` | curl/lib/base64.c:74-184 | Accepted are exactly whole quantums of letters of that alphabet with up to two `=` at the very end. |
| `Base64Loops.TableHoldsValues` | curl/lib/base64.c:54-59 | The decode table holds the values of the alphabet, and 255 elsewhere. |
| `Base64Loops.MakeLookup` | curl/lib/base64.c:118-127 | The table of 256 bytes filled from it maps every byte to its value. |
| `Base64Loops.DecodeQuantums` | curl/lib/base64.c:129-145 | The loop over complete quantums writes their bytes, or finds a bad symbol. |
| `Base64Loops.ReadPadded` | curl/lib/base64.c:146-166 | The loop over the last quantum is the specified one. |
| `Base64Loops.Base64Decode` | curl/lib/base64.c:74-184 | The decoder with its counters and moving position is the specified one. |
| `Base64Loops.Base64Encode` | curl/lib/base64.c:186-247 | The encoder with its shifts and masks is the specified one, and the output has the predicted length. |

## Left out

- Allocation failure, logging, the locks of the share interface, and reading or writing files: a line is a string, and the file loop's skipping of leading blanks and recognition of `Set-Cookie:` lines are not modelled.
- CookieLines.HeaderCookie: starts from trimmed name and value pairs, so the tokenisation by `sscanf`, its length limits (MAX_NAME, MAX_COOKIE_LINE) and the cap of 50 cookies per response are left out; the loop over the pairs is a recursive function.
- The public suffix library, `Curl_host_is_ipnum` and the date parser: a predicate that ignores letter case, and a function.
- The attributes `version`, `max-age` and `expires` are not kept as text in a cookie; their effect on the expiry time is.
- The width of `lastct`: creation times are unbounded integers.
- CookieMatch.BucketIsEnoughExactly: assumes of the IP predicate that it ignores case and that no name starting with `a.` or `b.` is an IP number.
- CookieFormats.HeaderReads: starts from the same pairs, with each attribute at most once; a domain attribute without content is skipped (`CookieFormats.EmptyDomainIsSkipped`).
- CookieStore.CookieInfo.AddHeader: starts from the same pairs.
- CookieLookup.LookupIsFullScan: stated for jars of indexable cookies only, since the others can land in another bucket than the host.
- CookieStore.CookieInfo.GetList: the collected cookies are a sequence of values, and qsort is the sorted form that every algorithm gives.
- `singleipconnect` is reduced to a pending socket or a result code with or without a socket opened and closed again; QUIC, TCP fast open, binding, keepalive and socket options are left out, and so are `Curl_timeleft` (the time left is an input), `os_errno` and its translation when giving up, and `socket_cf_close`.
- ConnectOrder.EveryAddressOnceInOrder: for the first socket, since the second one has no addresses of its own; for other outcomes of attempts the exact conditions are in the rows about retries, giving up and stalling.
- ZlibWriter.Writer.InflateStream: inflate is a consumer of the byte sequence it is offered, whose verdict is settled by the bytes that decide it; the inflate loop, its output, the downstream writer and the transparent gzip mode of newer versions are left out, as is the wrap of the 32-bit `avail_in`.
- The two threads of the resolver are a transition system on values, because a Dafny method runs alone; a step reads or writes one shared thing or takes one lock. The error exit of `init_thread_sync_data`, the platform without `getaddrinfo`, a failing join and the poll interval are left out.
- DNS messages: index arithmetic is on unbounded naturals, which is exact for messages of at most 3000 bytes, the limit of the response buffer; the response buffer itself and the two probes are left out.
- DohEncode.DohEncode: the output length for errors other than a bad label, which the code leaves unset, is 0.
- FileTime.MsFiletime.Time2Filetime64: for times whose product fits a signed 64-bit integer.
- Connection cache keys are opaque strings (`hashkey` with its 128-byte limit is left out), the doubly linked lists are sequences, and the hash is the sequence of its bundles in the order it is walked, with the place of a new bundle as a parameter. `Curl_conncache_return_conn` and disconnecting are left out.
- ConnCache.ConnCache.ForEach: the callback may remove the connection it is given and end the walk, and does nothing else to the cache.
- SASL messages, their encoding and the security layers: the outcome of each call is an input. Mechanism names, URL options and capability parsing are left out.
- Base64Loops.Base64Encode: the padded alphabet only; the URL alphabet, which has no decoder, is left out.
- libuv: it is only documentation here.
