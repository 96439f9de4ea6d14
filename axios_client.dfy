/** `src/api/axios.js`: the shared HTTP client. Its request interceptor puts
    the CSRF token from the `csrftoken` cookie into an `X-CSRFToken` header on
    state-changing requests, asking the backend once for a fresh cookie when
    there is none. The cookie jar and the network are parameters here:
    `cookie` is `document.cookie`, `refreshed` the jar after the extra GET
    (`None` when that request failed), and `decode` stands for
    `decodeURIComponent`. */
module AxiosClient {
  import opened Text
  import opened Wrappers

  /** `name + '='` with `name = 'csrftoken'`. */
  const TokenPrefix := "csrftoken="

  /** A cookie entry that, trimmed, starts with `csrftoken=`. */
  predicate IsTokenCookie(entry: string) {
    StartsWith(Trim(entry), TokenPrefix)
  }

  /** The decoded value of a token cookie: everything after the first `=`. */
  function TokenValue(entry: string, decode: string -> string): string
    requires IsTokenCookie(entry)
  {
    decode(Trim(entry)[|TokenPrefix|..])
  }

  /** Entry `i` is a token cookie and no entry before it is. */
  predicate FirstToken(entries: seq<string>, i: int) {
    0 <= i < |entries| && IsTokenCookie(entries[i])
    && forall j :: 0 <= j < i ==> !IsTokenCookie(entries[j])
  }

  /** Skipping a leading entry that is no token cookie moves the first
      token cookie one place on. */
  lemma FirstTokenShift(entries: seq<string>, i: int)
    requires entries != [] && !IsTokenCookie(entries[0])
    requires FirstToken(entries[1..], i)
    ensures FirstToken(entries, i + 1) && entries[i + 1] == entries[1..][i]
  {
    var tail := entries[1..];
    forall j | 0 <= j < i + 1 ensures !IsTokenCookie(entries[j]) {
      if j > 0 {
        assert entries[j] == tail[j - 1];
      }
    }
  }

  /** A leading entry that is no token cookie before a tail without one
      leaves no token cookie at all. */
  lemma NoTokenShift(entries: seq<string>)
    requires entries != [] && !IsTokenCookie(entries[0])
    requires forall j :: 0 <= j < |entries| - 1 ==> !IsTokenCookie(entries[1..][j])
    ensures forall j :: 0 <= j < |entries| ==> !IsTokenCookie(entries[j])
  {
    var tail := entries[1..];
    forall j | 0 <= j < |entries| ensures !IsTokenCookie(entries[j]) {
      if j > 0 {
        assert entries[j] == tail[j - 1];
      }
    }
  }

  /** The token of the first token cookie among `entries`, if any. */
  function TokenIn(entries: seq<string>, decode: string -> string): (r: Option<string>)
    ensures r.None? <==> forall i :: 0 <= i < |entries| ==> !IsTokenCookie(entries[i])
    ensures r.Some? ==> exists i :: FirstToken(entries, i) && r.value == TokenValue(entries[i], decode)
  {
    if entries == [] then None
    else if IsTokenCookie(entries[0]) then
      assert FirstToken(entries, 0);
      Some(TokenValue(entries[0], decode))
    else
      var tail := entries[1..];
      var r := TokenIn(tail, decode);
      if r.Some? then
        var i :| FirstToken(tail, i) && r.value == TokenValue(tail[i], decode);
        FirstTokenShift(entries, i);
        r
      else
        NoTokenShift(entries);
        r
  }

  /** What `getCSRFToken` returns for the cookie string `cookie`. */
  function CookieToken(cookie: string, decode: string -> string): Option<string> {
    if cookie == "" then None else TokenIn(Split(cookie, ';'), decode)
  }

  /** `getCSRFToken`: scans the `;`-separated entries and stops at the
      first token cookie. */
  method GetCsrfToken(cookie: string, decode: string -> string) returns (cookieValue: Option<string>)
    ensures cookieValue == CookieToken(cookie, decode)
  {
    cookieValue := None;
    if cookie != "" {
      var cookies := Split(cookie, ';');
      var i := 0;
      while i < |cookies|
        invariant 0 <= i <= |cookies|
        invariant cookieValue.None? ==> TokenIn(cookies[i..], decode) == TokenIn(cookies, decode)
        invariant cookieValue.Some? ==> cookieValue == TokenIn(cookies, decode)
        decreases |cookies| - i, cookieValue.None?
      {
        var entry := Trim(cookies[i]);
        if |entry| >= |TokenPrefix| && entry[..|TokenPrefix|] == TokenPrefix {
          cookieValue := Some(decode(entry[|TokenPrefix|..]));
          break;
        }
        assert cookies[i..][1..] == cookies[i + 1..];
        i := i + 1;
      }
    }
  }

  /** The guard on the empty cookie string changes nothing: an empty jar
      splits into one empty entry, which is no token cookie. */
  lemma EmptyGuardRedundant(cookie: string, decode: string -> string)
    ensures CookieToken(cookie, decode) == TokenIn(Split(cookie, ';'), decode)
  {
    if cookie == "" {
      SplitNone(cookie, ';');
      assert Trim("") == "";
    }
  }

  /** The first token cookie wins: an entry before the others decides when
      it is a token cookie, and is skipped otherwise. */
  lemma FirstTokenWins(first: string, rest: string, decode: string -> string)
    requires ';' !in first
    ensures IsTokenCookie(first) ==> CookieToken(first + ";" + rest, decode) == Some(TokenValue(first, decode))
    ensures !IsTokenCookie(first) ==> CookieToken(first + ";" + rest, decode) == CookieToken(rest, decode)
  {
    SplitFirst(first, rest, ';');
    assert first + ";" + rest == first + [';'] + rest;
    var parts := [first] + Split(rest, ';');
    assert parts[1..] == Split(rest, ';');
    EmptyGuardRedundant(rest, decode);
  }

  /** `csrftoken=v`, with `v` free of `;` and not ending in whitespace, is
      a single entry that trims to itself and is a token cookie. */
  lemma CleanTokenEntry(v: string)
    requires ';' !in v && v != [] && !IsSpace(v[|v| - 1])
    ensures ';' !in TokenPrefix + v
    ensures Trim(TokenPrefix + v) == TokenPrefix + v
    ensures IsTokenCookie(TokenPrefix + v)
    ensures (TokenPrefix + v)[|TokenPrefix|..] == v
  {
    var c := TokenPrefix + v;
    assert ';' !in c by {
      assert forall i :: 0 <= i < |TokenPrefix| ==> c[i] == TokenPrefix[i];
      assert forall i :: |TokenPrefix| <= i < |c| ==> c[i] == v[i - |TokenPrefix|];
    }
    assert c[0] == 'c' && c[|c| - 1] == v[|v| - 1];
    TrimClean(c);
    assert c[..|TokenPrefix|] == TokenPrefix;
  }

  /** Whatever follows `csrftoken=`, the entry is a token cookie: trimming
      stops at the `=`, which is not whitespace. */
  lemma PrefixedTokenCookie(v: string)
    ensures IsTokenCookie(TokenPrefix + v)
  {
    var c := TokenPrefix + v;
    assert c[0] == 'c' && c[9] == '=';
    assert LeadingSpaces(c) == 0;
    assert c[0..] == c;
    var n := TrailingSpaces(c);
    assert !IsSpace(c[9]);
    assert n <= |v|;
    assert Trim(c)[..|TokenPrefix|] == c[..|TokenPrefix|] == TokenPrefix;
  }

  /** The value is everything after the first `=`, further `=` included. */
  lemma ValueKeepsEquals(v: string, decode: string -> string)
    requires ';' !in v && v != [] && !IsSpace(v[|v| - 1])
    ensures CookieToken(TokenPrefix + v, decode) == Some(decode(v))
  {
    CleanTokenEntry(v);
    SplitNone(TokenPrefix + v, ';');
  }

  /** Leading whitespace before the entry is ignored, as the browser
      writes `a=1; csrftoken=…`. */
  lemma SpaceBeforeEntry(v: string)
    requires v != [] && !IsSpace(v[|v| - 1])
    ensures IsTokenCookie(" " + TokenPrefix + v)
  {
    var c := " " + TokenPrefix + v;
    var t := TokenPrefix + v;
    assert c == [' '] + t;
    LeadingSpacesOf([' '], t);
    assert c[1..] == t;
    assert t[0] == 'c' && t[|t| - 1] == v[|v| - 1];
    assert TrailingSpaces(t) == 0;
    assert t[..|t|] == t;
    assert t[..|TokenPrefix|] == TokenPrefix;
  }

  /** A cookie whose name merely starts or ends like `csrftoken` is not taken. */
  lemma OtherNamesIgnored(entry: string)
    requires StartsWith(Trim(entry), "csrftoken2=") || StartsWith(Trim(entry), "xcsrftoken=")
    ensures !IsTokenCookie(entry)
  {
    var t := Trim(entry);
    if StartsWith(t, "csrftoken2=") {
      assert t[9] == "csrftoken2="[9] == '2';
    } else {
      assert t[0] == 'x';
    }
  }

  // ---------------------------------------------------------------------------
  // The request interceptor
  // ---------------------------------------------------------------------------

  /** The methods that carry a CSRF token. */
  const UnsafeMethods: set<string> := {"post", "put", "patch", "delete"}

  /** `[...].includes(config.method?.toLowerCase())`: an absent method gives
      `undefined`, which is not in the list. */
  predicate NeedsToken(verb: Option<string>) {
    verb.Some? && Lower(verb.value) in UnsafeMethods
  }

  /** A token is truthy when it is there and not empty. */
  predicate Usable(token: Option<string>) {
    token.Some? && token.value != ""
  }

  /** The token the interceptor ends up with: the cookie's, or, when that is
      not usable, the one read again after the extra request (the old value
      staying when that request failed). */
  function TokenAfterRefresh(cookie: string, refreshed: Option<string>, decode: string -> string): Option<string> {
    var token := CookieToken(cookie, decode);
    if !Usable(token) && refreshed.Some? then CookieToken(refreshed.value, decode) else token
  }

  /** The axios request configuration the interceptor receives and returns;
      `verb` is its `method` property. */
  class RequestConfig {
    var verb: Option<string>
    var headers: map<string, string>

    constructor (verb: Option<string>, headers: map<string, string>)
      ensures this.verb == verb && this.headers == headers
    {
      this.verb := verb;
      this.headers := headers;
    }
  }

  /** The header name the backend checks. */
  const CsrfHeader := "X-CSRFToken"

  /** The request interceptor. `fetched` says whether it asked the backend
      for a fresh cookie. */
  method Intercept(config: RequestConfig, cookie: string, refreshed: Option<string>, decode: string -> string)
    returns (fetched: bool)
    modifies config
    ensures fetched <==> NeedsToken(config.verb) && !Usable(CookieToken(cookie, decode))
    ensures config.verb == old(config.verb)
    ensures NeedsToken(config.verb) && Usable(TokenAfterRefresh(cookie, refreshed, decode)) ==>
      config.headers == old(config.headers)[CsrfHeader := TokenAfterRefresh(cookie, refreshed, decode).value]
    ensures !(NeedsToken(config.verb) && Usable(TokenAfterRefresh(cookie, refreshed, decode))) ==>
      config.headers == old(config.headers)
  {
    fetched := false;
    var m := config.verb;
    if m.Some? && Lower(m.value) in UnsafeMethods {
      var csrfToken := GetCsrfToken(cookie, decode);
      if !(csrfToken.Some? && csrfToken.value != "") {
        fetched := true;
        if refreshed.Some? {
          csrfToken := GetCsrfToken(refreshed.value, decode);
        }
      }
      if csrfToken.Some? && csrfToken.value != "" {
        config.headers := config.headers[CsrfHeader := csrfToken.value];
      }
    }
  }

  /** The header, when set, never carries an empty token, and a usable
      cookie token is sent as it is without a refresh. */
  lemma SentTokenIsUsable(cookie: string, refreshed: Option<string>, decode: string -> string)
    ensures Usable(CookieToken(cookie, decode)) ==>
      TokenAfterRefresh(cookie, refreshed, decode) == CookieToken(cookie, decode)
    ensures !Usable(CookieToken(cookie, decode)) && refreshed.None? ==>
      !Usable(TokenAfterRefresh(cookie, refreshed, decode))
  {
  }

  /** Methods are matched without regard to case; reads are never touched. */
  lemma MethodCase()
    ensures NeedsToken(Some("POST")) && NeedsToken(Some("Delete"))
    ensures !NeedsToken(Some("GET")) && !NeedsToken(None)
  {
    assert Lower("POST") == "post";
    assert Lower("Delete") == "delete";
    assert Lower("GET") == "get";
  }
}
