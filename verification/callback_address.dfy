/** The callback address: the workflow id percent-encoded into one path segment
    (src/orchestration/docling_client.py), and what the relay's router makes of it
    (src/callback_relay/relay/relay.go). Strings are sequences of bytes. */
module CallbackAddress {
  import opened Models
  import opened Strings
  import Naming

  type Byte = c: char | c as int < 256 witness 'a'

  /** Section 2.3 of RFC 3986. */
  predicate Unreserved(c: char) {
    'a' <= c <= 'z' || 'A' <= c <= 'Z' || '0' <= c <= '9' || c == '-' || c == '.' || c == '_' || c == '~'
  }

  function HexDigit(n: int): char
    requires 0 <= n < 16
  {
    "0123456789ABCDEF"[n]
  }

  function QuoteByte(c: Byte): string {
    if Unreserved(c) then [c] else ['%', HexDigit(c as int / 16), HexDigit(c as int % 16)]
  }

  /** `quote(s, safe="")`: every byte that is not unreserved becomes %XX. */
  function Quote(s: seq<Byte>): string {
    if s == [] then [] else QuoteByte(s[0]) + Quote(s[1..])
  }

  function FromHex(c: char): Option<int> {
    if '0' <= c <= '9' then Some(c as int - '0' as int)
    else if 'A' <= c <= 'F' then Some(c as int - 'A' as int + 10)
    else if 'a' <= c <= 'f' then Some(c as int - 'a' as int + 10)
    else None
  }

  /** The router's unescape of one segment; None: a malformed escape. */
  function Unescape(s: string): Option<string>
    decreases |s|
  {
    if s == [] then Some([])
    else if s[0] != '%' then
      var rest := Unescape(s[1..]);
      if rest.None? then None else Some([s[0]] + rest.value)
    else if |s| < 3 || FromHex(s[1]).None? || FromHex(s[2]).None? then None
    else
      var rest := Unescape(s[3..]);
      if rest.None? then None
      else Some([(FromHex(s[1]).value * 16 + FromHex(s[2]).value) as char] + rest.value)
  }

  lemma HexRoundTrip(n: int)
    requires 0 <= n < 16
    ensures FromHex(HexDigit(n)) == Some(n) && Unreserved(HexDigit(n))
  {}

  lemma EscapedByte(c: Byte)
    ensures var n := c as int;
            0 <= n / 16 < 16 && 0 <= n % 16 < 16 &&
            FromHex(HexDigit(n / 16)) == Some(n / 16) && FromHex(HexDigit(n % 16)) == Some(n % 16) &&
            (n / 16) * 16 + n % 16 == n
  {
    HexRoundTrip(c as int / 16);
    HexRoundTrip(c as int % 16);
  }

  /** Unescaping takes an encoded byte back first, and goes on with what follows it. */
  lemma UnescapeByte(c: Byte, rest: string)
    requires Unescape(rest).Some?
    ensures Unescape(QuoteByte(c) + rest) == Some([c] + Unescape(rest).value)
  {
    var s := QuoteByte(c) + rest;
    if Unreserved(c) {
      assert s[0] == c && s[1..] == rest;
    } else {
      EscapedByte(c);
      UnescapeEscape(HexDigit(c as int / 16), HexDigit(c as int % 16), rest);
    }
  }

  lemma UnescapeEscape(hi: char, lo: char, rest: string)
    requires FromHex(hi).Some? && FromHex(lo).Some? && Unescape(rest).Some?
    ensures Unescape(['%', hi, lo] + rest) ==
            Some([(FromHex(hi).value * 16 + FromHex(lo).value) as char] + Unescape(rest).value)
  {
    var s := ['%', hi, lo] + rest;
    assert s[0] == '%' && s[1] == hi && s[2] == lo && s[3..] == rest;
  }

  /** The relay reads back the id the worker wrote, for every byte string. */
  lemma {:induction false} QuoteRoundTrip(s: seq<Byte>)
    ensures Unescape(Quote(s)) == Some(s)
    decreases |s|
  {
    if s != [] {
      QuoteRoundTrip(s[1..]);
      assert s == [s[0]] + s[1..];
      UnescapeByte(s[0], Quote(s[1..]));
    }
  }

  /** The encoded id is made of unreserved characters and '%' alone. */
  lemma {:induction false} QuoteIsSafe(s: seq<Byte>)
    ensures forall c | c in Quote(s) :: Unreserved(c) || c == '%'
    ensures |Quote(s)| >= |s|
    ensures (forall c | c in s :: Unreserved(c)) ==> Quote(s) == s
    decreases |s|
  {
    if s != [] {
      QuoteIsSafe(s[1..]);
      assert s == [s[0]] + s[1..];
      if !Unreserved(s[0]) {
        HexRoundTrip(s[0] as int / 16);
        HexRoundTrip(s[0] as int % 16);
      }
    }
  }

  // The router: path cleaning, splitting, matching.

  function Split(path: string): seq<string>
    decreases |path|
  {
    if '/' !in path then [path]
    else
      SplitAtLast(path, '/');
      Split(BeforeLast(path, '/')) + [AfterLast(path, '/')]
  }

  function Resolve(done: seq<string>, segments: seq<string>): seq<string>
    decreases |segments|
  {
    if segments == [] then done
    else if segments[0] == "" || segments[0] == "." then Resolve(done, segments[1..])
    else if segments[0] == ".." then Resolve(if done == [] then [] else done[..|done| - 1], segments[1..])
    else Resolve(done + [segments[0]], segments[1..])
  }

  function Join(segments: seq<string>): string {
    if segments == [] then "" else Join(segments[..|segments| - 1]) + "/" + segments[|segments| - 1]
  }

  /** The mux's path cleaning, of a rooted path. */
  function CleanPath(path: string): string {
    var cleaned := Join(Resolve([], Split(path)));
    if cleaned == "" then "/"
    else if path != "" && path[|path| - 1] == '/' then cleaned + "/"
    else cleaned
  }

  /** The pattern /v1/callbacks/{workflowID}: a path that cleaning would change is
      redirected instead, and a malformed escape is left as it is. */
  function Route(path: string): Option<string> {
    var segments := Split(path);
    if CleanPath(path) == path && |segments| == 4 && segments[0] == "" && segments[1] == "v1" &&
       segments[2] == "callbacks" && segments[3] != ""
    then
      var id := Unescape(segments[3]);
      Some(if id.None? then segments[3] else id.value)
    else None
  }

  function CallbackPath(workflowId: seq<Byte>): string {
    "/v1/callbacks/" + Quote(workflowId)
  }

  function TrimSlashes(s: string): string {
    if s != [] && s[|s| - 1] == '/' then TrimSlashes(s[..|s| - 1]) else s
  }

  /** The callback URLs registered with a submit: none without a relay or a workflow. */
  function CallbackUrls(callbackBaseUrl: Option<string>, workflowId: Option<seq<Byte>>): seq<string> {
    if callbackBaseUrl.None? || callbackBaseUrl.value == "" || workflowId.None? || workflowId.value == [] then []
    else [TrimSlashes(callbackBaseUrl.value) + CallbackPath(workflowId.value)]
  }

  lemma SplitConcat(a: string, b: string)
    requires '/' !in b
    ensures Split(a + "/" + b) == Split(a) + [b]
  {
    var s := a + "/" + b;
    assert s == a + ['/'] + b && s[|a|] == '/';
    AfterLastOf(a, b, '/');
    BeforeLastOf(a, b, '/');
  }

  lemma SplitCallback(q: string)
    requires '/' !in q
    ensures Split("/v1/callbacks/" + q) == ["", "v1", "callbacks", q]
  {
    SplitBase();
    assert "/v1/callbacks" + "/" + q == "/v1/callbacks/" + q;
    SplitConcat("/v1/callbacks", q);
  }

  lemma SplitBase()
    ensures Split("/v1/callbacks") == ["", "v1", "callbacks"]
  {
    assert "" + "/" + "v1" == "/v1";
    SplitConcat("", "v1");
    assert "/v1" + "/" + "callbacks" == "/v1/callbacks";
    SplitConcat("/v1", "callbacks");
  }

  lemma JoinOne(segments: seq<string>, last: string)
    ensures Join(segments + [last]) == Join(segments) + "/" + last
  {
    assert (segments + [last])[..|segments|] == segments;
  }

  lemma ResolveCallback(q: string)
    ensures Resolve([], ["", "v1", "callbacks", q]) ==
            if q == "" || q == "." then ["v1", "callbacks"]
            else if q == ".." then ["v1"]
            else ["v1", "callbacks", q]
  {
    var s := ["", "v1", "callbacks", q];
    assert s[1..] == ["v1", "callbacks", q] && s[1..][1..] == ["callbacks", q] && s[1..][1..][1..] == [q];
    assert Resolve([], s) == Resolve([], s[1..]) == Resolve([] + ["v1"], s[1..][1..]);
    assert [] + ["v1"] == ["v1"] && ["v1"] + ["callbacks"] == ["v1", "callbacks"];
    assert Resolve(["v1"], s[1..][1..]) == Resolve(["v1", "callbacks"], [q]);
    assert ["v1", "callbacks"] + [q] == ["v1", "callbacks", q];
    assert ["v1", "callbacks"][..1] == ["v1"];
    var done := ["v1", "callbacks"];
    assert [q][1..] == [] && Resolve(done + [q], []) == done + [q] && Resolve(done[..1], []) == done[..1];
    assert Resolve(done, [q]) ==
      if q == "" || q == "." then done else if q == ".." then done[..1] else done + [q];
  }

  lemma JoinBase()
    ensures Join(["v1"]) == "/v1" && Join(["v1", "callbacks"]) == "/v1/callbacks"
  {
    JoinOne([], "v1");
    JoinOne(["v1"], "callbacks");
    assert [] + ["v1"] == ["v1"] && ["v1"] + ["callbacks"] == ["v1", "callbacks"];
  }

  lemma JoinCallback(q: string)
    ensures Join(["v1", "callbacks", q]) == "/v1/callbacks/" + q
  {
    JoinBase();
    JoinOne(["v1", "callbacks"], q);
    assert ["v1", "callbacks"] + [q] == ["v1", "callbacks", q];
    assert "/v1/callbacks" + "/" == "/v1/callbacks/";
  }

  /** Path cleaning leaves a callback path as it is, unless its last segment is a dot
      segment (section 3.3 of RFC 3986). */
  lemma CleaningKeepsCallback(q: string)
    requires '/' !in q
    ensures CleanPath("/v1/callbacks/" + q) == "/v1/callbacks/" + q <==> q != "." && q != ".."
  {
    var path := "/v1/callbacks/" + q;
    SplitCallback(q);
    ResolveCallback(q);
    JoinBase();
    JoinCallback(q);
    if q != "" {
      assert path[|path| - 1] == q[|q| - 1];
    } else {
      assert path[|path| - 1] == '/';
    }
  }

  lemma DotsStay(id: seq<Byte>)
    ensures Quote(id) == "" <==> id == ""
    ensures Quote(id) == "." <==> id == "."
    ensures Quote(id) == ".." <==> id == ".."
  {
    QuoteRoundTrip(id);
    QuoteIsSafe(id);
    UnescapePlain("");
    UnescapePlain(".");
    UnescapePlain("..");
  }

  lemma {:induction false} UnescapePlain(s: string)
    requires '%' !in s
    ensures Unescape(s) == Some(s)
    decreases |s|
  {
    if s != [] {
      UnescapePlain(s[1..]);
      assert s == [s[0]] + s[1..];
    }
  }

  /** The relay gets back exactly the id the worker addressed, for every id that is
      neither empty nor a dot segment, and for no other. */
  lemma RouteReturnsId(id: seq<Byte>)
    ensures Route(CallbackPath(id)) == Some(id) <==> id != "" && id != "." && id != ".."
    ensures Route(CallbackPath(id)).Some? ==> Route(CallbackPath(id)) == Some(id)
  {
    QuoteIsSafe(id);
    QuoteRoundTrip(id);
    DotsStay(id);
    SplitCallback(Quote(id));
    CleaningKeepsCallback(Quote(id));
  }

  function Slashes(n: nat): string {
    if n == 0 then "" else Slashes(n - 1) + "/"
  }

  lemma {:induction false} TrimsSlashes(origin: string, n: nat)
    requires origin == "" || origin[|origin| - 1] != '/'
    ensures TrimSlashes(origin + Slashes(n)) == origin
    decreases n
  {
    if n == 0 {
      assert origin + Slashes(n) == origin;
    } else {
      var s := origin + Slashes(n);
      assert s == origin + Slashes(n - 1) + "/" && s[..|s| - 1] == origin + Slashes(n - 1);
      TrimsSlashes(origin, n - 1);
    }
  }

  /** What is registered with a submit: nothing exactly without a relay or a workflow;
      otherwise one URL, whatever slashes end the configured base, whose path below the
      relay's origin is routed to the very workflow id. */
  lemma RegisteredUrlRoutes(origin: string, n: nat, id: seq<Byte>)
    requires origin == "" || origin[|origin| - 1] != '/'
    ensures CallbackUrls(None, Some(id)) == CallbackUrls(Some(origin + Slashes(n)), None) == []
    ensures var urls := CallbackUrls(Some(origin + Slashes(n)), Some(id));
            && (urls == [] <==> (origin == "" && n == 0) || id == "")
            && (urls != [] ==> |urls| == 1 && StartsWith(urls[0], origin))
            && (urls != [] && id != "." && id != ".." ==> Route(urls[0][|origin|..]) == Some(id))
  {
    TrimsSlashes(origin, n);
    if n > 0 {
      assert |Slashes(n)| > 0;
    } else {
      assert origin + Slashes(n) == origin;
    }
    RouteReturnsId(id);
    assert (origin + CallbackPath(id))[|origin|..] == CallbackPath(id);
  }

  /** Callback address round trip: every document's workflow id becomes one clean path
      segment without delimiters, and reaches the relay unchanged. */
  lemma CallbackAddressRoundTrip(bucket: seq<Byte>, key: seq<Byte>)
    ensures var id: seq<Byte> := Naming.WorkflowId(bucket, key);
            && (forall c | c in Quote(id) :: c != '/' && c != '?' && c != '#')
            && Quote(id) != "" && Quote(id) != "." && Quote(id) != ".."
            && CleanPath(CallbackPath(id)) == CallbackPath(id)
            && Route(CallbackPath(id)) == Some(id)
  {
    var id: seq<Byte> := Naming.WorkflowId(bucket, key);
    assert |id| >= 9;
    QuoteIsSafe(id);
    RouteReturnsId(id);
    CleaningKeepsCallback(Quote(id));
  }

  /** Exactly the letters, the digits and the four marks of section 2.3 of RFC 3986 stand for
      themselves; any other byte becomes three characters. */
  lemma BytesThatStay(c: Byte)
    ensures Quote([c]) == [c] <==> 'a' <= c <= 'z' || 'A' <= c <= 'Z' || '0' <= c <= '9' || c in "-._~"
    ensures Quote([c]) != [c] ==> |Quote([c])| == 3 && Quote([c])[0] == '%'
  {
    assert [c][1..] == [] && Quote([c]) == QuoteByte(c) + [];
  }

  /** Encoding and decoding, by example: hexadecimal digits are upper case, the high one
      first, and read in either case. */
  lemma SlashExample()
    ensures Quote("/") == "%2F" && Unescape("%2F") == Unescape("%2f") == Some("/")
  {
    assert "/"[1..] == "" && QuoteByte('/') == "%2F" && Quote("") == "";
    UnescapeEscape('2', 'F', "");
    UnescapeEscape('2', 'f', "");
    assert ['%', '2', 'F'] + "" == "%2F" && ['%', '2', 'f'] + "" == "%2f";
    assert [(2 * 16 + 15) as char] + "" == "/";
  }

  /** Where a callback is registered, with or without a slash ending the base. */
  lemma RegisteredUrl(origin: string, id: seq<Byte>)
    requires origin != "" && origin[|origin| - 1] != '/' && id != ""
    ensures CallbackUrls(Some(origin), Some(id)) == [origin + "/v1/callbacks/" + Quote(id)]
    ensures CallbackUrls(Some(origin + "/"), Some(id)) == [origin + "/v1/callbacks/" + Quote(id)]
  {
    TrimsSlashes(origin, 0);
    TrimsSlashes(origin, 1);
    assert Slashes(1) == Slashes(0) + "/" == "/" && origin + Slashes(0) == origin;
    assert origin + ("/v1/callbacks/" + Quote(id)) == origin + "/v1/callbacks/" + Quote(id);
  }
}
