/** `src/utils/csrf.js`: the token from the page's hidden
    `csrfmiddlewaretoken` input, else from the `csrftoken` cookie. The DOM is
    a parameter: `domToken` is the input's value, `None` when the page has no
    such input. Unlike the client in `src/api/axios.js`, this reader neither
    decodes the value nor keeps anything after a second `=`. */
module CsrfUtils {
  import opened Text
  import opened Wrappers
  import AxiosClient

  /** `cookies.find(cookie => cookie.trim().startsWith('csrftoken='))`. */
  function FindTokenCookie(cookies: seq<string>): (r: Option<string>)
    ensures r.None? <==> forall i :: 0 <= i < |cookies| ==> !AxiosClient.IsTokenCookie(cookies[i])
    ensures r.Some? ==> exists i :: AxiosClient.FirstToken(cookies, i) && cookies[i] == r.value
  {
    if cookies == [] then None
    else if AxiosClient.IsTokenCookie(cookies[0]) then
      assert AxiosClient.FirstToken(cookies, 0);
      Some(cookies[0])
    else
      var tail := cookies[1..];
      var r := FindTokenCookie(tail);
      if r.Some? then
        var i :| AxiosClient.FirstToken(tail, i) && tail[i] == r.value;
        AxiosClient.FirstTokenShift(cookies, i);
        r
      else
        AxiosClient.NoTokenShift(cookies);
        r
  }

  /** A token cookie entry holds an `=`, since its trimmed text does. */
  lemma TokenCookieHasEquals(entry: string)
    requires AxiosClient.IsTokenCookie(entry)
    ensures '=' in entry
  {
    TrimSlice(entry);
    var a, b :| 0 <= a <= b <= |entry| && Trim(entry) == entry[a..b];
    var t := Trim(entry);
    assert t[9] == AxiosClient.TokenPrefix[9] == '=';
    assert entry[a + 9] == '=';
  }

  /** A text with a separator splits into at least two pieces. */
  lemma SplitAtLeastTwo(s: string, sep: char)
    requires sep in s
    ensures |Split(s, sep)| >= 2
  {
    var k :| 0 <= k < |s| && s[k] == sep;
    assert IsAt(s, [sep], k) by { assert s[k..k + 1] == [sep]; }
    FindFromZero(s, [sep], k);
  }

  /** `csrfCookie.split('=')[1]`: the text between the first and the second
      `=` of the untrimmed entry. */
  function SecondField(entry: string): string
    requires '=' in entry
  {
    SplitAtLeastTwo(entry, '=');
    Split(entry, '=')[1]
  }

  /** `getCSRFToken` of `csrf.js`. */
  function GetCsrfToken(domToken: Option<string>, cookie: string): (r: Option<string>)
    ensures domToken.Some? && domToken.value != "" ==> r == domToken
    ensures (domToken.None? || domToken.value == "") ==>
      (r.None? <==> FindTokenCookie(Split(cookie, ';')).None?)
  {
    if domToken.Some? && domToken.value != "" then domToken
    else
      var found := FindTokenCookie(Split(cookie, ';'));
      if found.None? then None
      else
        TokenCookieHasEquals(found.value);
        Some(SecondField(found.value))
  }

  /** The second `=`-separated field of `csrftoken=a=b` is `a`. */
  lemma SecondFieldOf(a: string, b: string)
    requires '=' !in a
    ensures SecondField(AxiosClient.TokenPrefix + a + "=" + b) == a
  {
    var c := AxiosClient.TokenPrefix + a + "=" + b;
    assert c == "csrftoken" + ['='] + (a + ['='] + b);
    SplitFirst("csrftoken", a + ['='] + b, '=');
    SplitFirst(a, b, '=');
  }

  /** A jar holding only `csrftoken=v` yields that entry. */
  lemma SoleTokenCookie(v: string)
    requires ';' !in v && v != [] && !IsSpace(v[|v| - 1])
    ensures FindTokenCookie(Split(AxiosClient.TokenPrefix + v, ';')) == Some(AxiosClient.TokenPrefix + v)
  {
    var c := AxiosClient.TokenPrefix + v;
    AxiosClient.CleanTokenEntry(v);
    SplitNone(c, ';');
    assert FindTokenCookie([c]) == Some(c);
  }

  /** The value stops at a second `=`: with `v = a + "=" + b`, this reader
      returns `a` where the axios client returns `decode(a + "=" + b)`. */
  lemma StopsAtSecondEquals(a: string, b: string, decode: string -> string)
    requires '=' !in a && ';' !in a && ';' !in b
    requires b != [] && !IsSpace(b[|b| - 1])
    ensures GetCsrfToken(None, AxiosClient.TokenPrefix + a + "=" + b) == Some(a)
    ensures AxiosClient.CookieToken(AxiosClient.TokenPrefix + a + "=" + b, decode) == Some(decode(a + "=" + b))
  {
    var v := a + "=" + b;
    assert AxiosClient.TokenPrefix + v == AxiosClient.TokenPrefix + a + "=" + b;
    assert ';' !in v by {
      assert forall i :: 0 <= i < |a| ==> v[i] == a[i];
      assert v[|a|] == '=';
      assert forall i :: |a| < i < |v| ==> v[i] == b[i - |a| - 1];
    }
    assert v[|v| - 1] == b[|b| - 1];
    AxiosClient.ValueKeepsEquals(v, decode);
    SoleTokenCookie(v);
    SecondFieldOf(a, b);
  }

  /** Without a second `=`, the value is the rest of the untrimmed entry:
      `csrftoken=abc` gives `abc` and `csrftoken=` gives the empty token. */
  lemma PlainTokenCookie(v: string)
    requires '=' !in v && ';' !in v
    ensures GetCsrfToken(None, AxiosClient.TokenPrefix + v) == Some(v)
  {
    var c := AxiosClient.TokenPrefix + v;
    assert ';' !in c by {
      assert forall i :: 0 <= i < |AxiosClient.TokenPrefix| ==> c[i] == AxiosClient.TokenPrefix[i];
      assert forall i :: |AxiosClient.TokenPrefix| <= i < |c| ==> c[i] == v[i - |AxiosClient.TokenPrefix|];
    }
    SplitNone(c, ';');
    AxiosClient.PrefixedTokenCookie(v);
    assert FindTokenCookie([c]) == Some(c);
    assert c == "csrftoken" + ['='] + v;
    SplitFirst("csrftoken", v, '=');
    SplitNone(v, '=');
  }

  /** A page token wins over any cookie. */
  lemma PageTokenFirst(t: string, cookie: string)
    requires t != ""
    ensures GetCsrfToken(Some(t), cookie) == Some(t)
  {
  }

  /** An empty page token falls back to the cookie, as a missing one does. */
  lemma EmptyPageTokenIgnored(cookie: string)
    ensures GetCsrfToken(Some(""), cookie) == GetCsrfToken(None, cookie)
  {
  }
}
