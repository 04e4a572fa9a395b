/** The download-handler page: the page the locker sends the visitor back to.
    It reads the game id from the query string, looks up the download URL,
    decides whether the request is valid, and counts down from 5 before
    navigating to the URL. */
module DownloadHandler {
  import opened Options
  import opened LockerConfig

  // ---------------------------------------------------------------------
  // Reading the query string (`useSearchParams`)
  // ---------------------------------------------------------------------

  /** The text of `s` before the first `c` (all of `s` when there is none). */
  function Before(s: string, c: char): (r: string)
    ensures r <= s
    ensures c !in r
    ensures c in s ==> |r| < |s| && s[|r|] == c
  {
    if s == [] || s[0] == c then [] else [s[0]] + Before(s[1..], c)
  }

  /** The text of `s` after the first `c` (empty when there is none). */
  function After(s: string, c: char): (r: string)
    ensures c in s ==> s == Before(s, c) + [c] + r
    ensures c !in s ==> r == []
    ensures |r| < |s| || s == []
  {
    if s == [] then []
    else if s[0] == c then s[1..]
    else
      var r := After(s[1..], c);
      assert Before(s, c) == [s[0]] + Before(s[1..], c);
      assert c in s ==> c in s[1..];
      assert c in s[1..] ==> s == [s[0]] + (Before(s[1..], c) + [c] + r);
      r
  }

  /** `s.split(sep)`: the pieces between the separators, in order. */
  function SplitOn(s: string, sep: char): (pieces: seq<string>)
    ensures |pieces| >= 1
    ensures forall k :: 0 <= k < |pieces| ==> sep !in pieces[k]
    ensures sep !in s ==> pieces == [s]
    decreases |s|
  {
    if sep !in s then [s]
    else [Before(s, sep)] + SplitOn(After(s, sep), sep)
  }

  /** The query of a URL: after the first `?`, up to the fragment. */
  function QueryOf(url: string): string
  {
    After(Before(url, '#'), '?')
  }

  /** Form decoding replaces `+` by a space before percent-decoding. */
  function PlusToSpace(s: string): (r: string)
    ensures |r| == |s|
    ensures '+' !in r
    ensures '+' !in s ==> r == s
  {
    seq(|s|, k requires 0 <= k < |s| => if s[k] == '+' then ' ' else s[k])
  }

  /** One `name=value` piece: the name runs to the first `=`; a piece without
      `=` has an empty value. Both halves are decoded with `dec`. */
  function ParsePair(piece: string, dec: string -> string): (pair: (string, string))
  {
    (dec(PlusToSpace(Before(piece, '='))), dec(PlusToSpace(After(piece, '='))))
  }

  /** `new URLSearchParams(query)`: the `&`-separated pieces, empty ones skipped. */
  function ParseQuery(query: string, dec: string -> string): (params: seq<(string, string)>)
    ensures |params| <= |SplitOn(query, '&')|
  {
    ParsePieces(SplitOn(query, '&'), dec)
  }

  function ParsePieces(pieces: seq<string>, dec: string -> string): (params: seq<(string, string)>)
    ensures |params| <= |pieces|
  {
    if pieces == [] then []
    else if pieces[0] == "" then ParsePieces(pieces[1..], dec)
    else [ParsePair(pieces[0], dec)] + ParsePieces(pieces[1..], dec)
  }

  /** `searchParams.get(key)`: the value of the first pair named `key`, or `null`. */
  function Get(params: seq<(string, string)>, key: string): (v: Option<string>)
    ensures v.Some? <==> exists k :: 0 <= k < |params| && params[k].0 == key
    ensures v.Some? ==> exists k :: (0 <= k < |params| && params[k] == (key, v.value) &&
                                     forall j :: 0 <= j < k ==> params[j].0 != key)
  {
    if params == [] then None
    else if params[0].0 == key then Some(params[0].1)
    else
      var v := Get(params[1..], key);
      assert forall k :: 0 < k < |params| ==> params[k] == params[1..][k - 1];
      v
  }

  /** A parameter is truthy when present and non-empty. */
  predicate Truthy(v: Option<string>)
  {
    v.Some? && v.value != ""
  }

  /** `searchParams.get("gameId") || searchParams.get("game") || ""`. */
  function GameIdFrom(params: seq<(string, string)>): (gameId: string)
    ensures Truthy(Get(params, "gameId")) ==> gameId == Get(params, "gameId").value
    ensures !Truthy(Get(params, "gameId")) && Truthy(Get(params, "game")) ==> gameId == Get(params, "game").value
    ensures gameId == "" <==> !Truthy(Get(params, "gameId")) && !Truthy(Get(params, "game"))
  {
    var primary := Get(params, "gameId");
    var fallback := Get(params, "game");
    if Truthy(primary) then primary.value
    else if Truthy(fallback) then fallback.value
    else ""
  }

  /** A non-empty game id is the value of one of the two parameters. */
  lemma GameIdComesFromParams(params: seq<(string, string)>)
    requires GameIdFrom(params) != ""
    ensures exists k :: (0 <= k < |params| &&
      (params[k] == ("gameId", GameIdFrom(params)) || params[k] == ("game", GameIdFrom(params))))
  {
  }

  // ---------------------------------------------------------------------
  // Validity
  // ---------------------------------------------------------------------

  /** `isValidRedirect = Boolean(gameId && downloadUrl)`: valid exactly for the
      ids of the download table. */
  predicate IsValidRedirect(gameId: string)
    ensures IsValidRedirect(gameId) <==> gameId in ListedIds()
  {
    gameId != "" && GetDownloadUrl(gameId) != ""
  }

  /** The validity test as written, over what `DOWNLOAD_URLS[gameId] || ""`
      really yields: an inherited `Object.prototype` member is truthy. */
  predicate IsValidRedirectAsWritten(gameId: string)
    ensures IsValidRedirectAsWritten(gameId) <==>
      gameId in ListedIds() || (IsObjectPrototypeMember(gameId) && gameId !in DownloadUrls())
  {
    gameId != "" &&
    match GetDownloadUrlAsWritten(gameId)
    case Str(s) => s != ""
    case Undefined => false
    case Inherited => true
  }

  /** The query `?gameId=toString` passes the validity test as written and
      starts the countdown towards a function value, though the id has no
      download; the own-property lookup rejects it. */
  lemma InheritedMemberPassesAsWritten()
    ensures IsValidRedirectAsWritten("toString")
    ensures !IsValidRedirect("toString")
  {
    DownloadUrlsKeys();
    forall k | 0 <= k < 12
      ensures ListedIds()[k] != "toString"
    {
      assert ListedIds()[k] == DownloadEntry(k).0;
    }
    assert "toString" !in ListedIds();
  }

  // ---------------------------------------------------------------------
  // Round trip: the redirect URL read back by this page
  // ---------------------------------------------------------------------

  /** An encoding has none of the characters that delimit a query. */
  lemma EncodedHasNoDelimiter(enc: string -> string, dec: string -> string, s: string, c: char)
    requires IsUriCodec(enc, dec)
    requires !IsUriUnreserved(c) && c != '%'
    ensures c !in enc(s)
  {
    forall k | 0 <= k < |enc(s)|
      ensures enc(s)[k] != c
    {
      assert IsUriUnreserved(enc(s)[k]) || enc(s)[k] == '%';
    }
  }

  /** A name made of unreserved characters decodes to itself. */
  lemma UnreservedDecodesToItself(enc: string -> string, dec: string -> string, s: string)
    requires IsUriCodec(enc, dec)
    requires forall k :: 0 <= k < |s| ==> IsUriUnreserved(s[k])
    ensures dec(s) == s
  {
    assert enc(s) == s;
    assert dec(enc(s)) == s;
  }

  lemma {:induction false} BeforeAbsent(s: string, c: char)
    requires c !in s
    ensures Before(s, c) == s
  {
    if s != [] {
      BeforeAbsent(s[1..], c);
    }
  }

  lemma {:induction false} AfterFirst(a: string, c: char, b: string)
    requires c !in a
    ensures Before(a + [c] + b, c) == a
    ensures After(a + [c] + b, c) == b
  {
    if a != [] {
      assert (a + [c] + b)[1..] == a[1..] + [c] + b;
      AfterFirst(a[1..], c, b);
    }
  }

  /** A URL `prefix?name=value` without a fragment has the query `name=value`. */
  lemma QueryOfUrl(prefix: string, piece: string)
    requires '#' !in prefix && '#' !in piece && '?' !in prefix
    ensures QueryOf(prefix + "?" + piece) == piece
  {
    var url := prefix + "?" + piece;
    assert url == prefix + ['?'] + piece;
    assert '#' !in url;
    BeforeAbsent(url, '#');
    AfterFirst(prefix, '?', piece);
  }

  /** A query holding the one piece `name=value` parses to one decoded pair. */
  lemma SinglePairQuery(name: string, value: string, dec: string -> string)
    requires name != [] && '=' !in name && '&' !in name
    requires '&' !in value
    ensures ParseQuery(name + "=" + value, dec) == [(dec(PlusToSpace(name)), dec(PlusToSpace(value)))]
  {
    var piece := name + "=" + value;
    assert piece == name + ['='] + value;
    assert '&' !in piece;
    assert SplitOn(piece, '&') == [piece];
    AfterFirst(name, '=', value);
    assert ParsePieces([piece], dec) == [ParsePair(piece, dec)] + ParsePieces([], dec);
  }

  /** An encoding has no `#`, `&` or `+`, and decodes back. */
  lemma EncodedValue(enc: string -> string, dec: string -> string, v: string)
    requires IsUriCodec(enc, dec)
    ensures '#' !in enc(v) && '&' !in enc(v) && '+' !in enc(v)
    ensures dec(enc(v)) == v
  {
    EncodedHasNoDelimiter(enc, dec, v, '#');
    EncodedHasNoDelimiter(enc, dec, v, '&');
    EncodedHasNoDelimiter(enc, dec, v, '+');
  }

  /** An unreserved name has none of the characters that delimit a query. */
  lemma UnreservedName(name: string)
    requires forall k :: 0 <= k < |name| ==> IsUriUnreserved(name[k])
    ensures '=' !in name && '&' !in name && '+' !in name && '#' !in name
  {
    forall k | 0 <= k < |name|
      ensures name[k] != '=' && name[k] != '&' && name[k] != '+' && name[k] != '#'
    {
      assert IsUriUnreserved(name[k]);
    }
  }

  /** The query of `prefix?name=value` is `name=value`. */
  lemma QueryOfPair(prefix: string, name: string, value: string)
    requires '#' !in prefix && '?' !in prefix && '#' !in name && '#' !in value
    ensures QueryOf(prefix + "?" + name + "=" + value) == name + "=" + value
  {
    var piece := name + "=" + value;
    assert piece == name + ['='] + value;
    assert '#' !in piece;
    assert prefix + "?" + name + "=" + value == prefix + "?" + piece;
    QueryOfUrl(prefix, piece);
  }

  /** A query `name=enc(v)` with an unreserved name parses to the one pair (name, v). */
  lemma QueryRoundTrip(prefix: string, name: string, v: string,
                       enc: string -> string, dec: string -> string)
    requires IsUriCodec(enc, dec)
    requires IsQueryPrefix(prefix, name)
    ensures ParseQuery(QueryOf(prefix + "?" + name + "=" + enc(v)), dec) == [(name, v)]
  {
    var value := enc(v);
    EncodedValue(enc, dec, v);
    UnreservedName(name);
    UnreservedDecodesToItself(enc, dec, name);
    QueryOfPair(prefix, name, value);
    SinglePairQuery(name, value, dec);
  }

  /** Every listed id is non-empty. */
  lemma ListedIdsNonEmpty(id: string)
    requires id in ListedIds()
    ensures id != ""
  {
    var k :| 0 <= k < 12 && ListedIds()[k] == id;
  }

  /** `path?name=` is a query prefix: no fragment or query in the path, and
      a name that encodes and decodes to itself. */
  predicate IsQueryPrefix(path: string, name: string)
  {
    '#' !in path && '?' !in path && name != [] &&
    forall k :: 0 <= k < |name| ==> IsUriUnreserved(name[k])
  }

  lemma DevelopmentPrefixSplits()
    ensures IsQueryPrefix(DevelopmentPage, DevelopmentParam)
  {
  }

  lemma ProductionPrefixSplits()
    ensures IsQueryPrefix(ProductionPage, ProductionParam)
  {
  }

  /** The development redirect URL comes back through the `gameId` parameter. */
  lemma DevelopmentRoundTrip(id: string, enc: string -> string, dec: string -> string)
    requires IsUriCodec(enc, dec)
    ensures ParseQuery(QueryOf(DevelopmentPrefix + enc(id)), dec) == [("gameId", id)]
  {
    DevelopmentPrefixSplits();
    QueryRoundTrip(DevelopmentPage, DevelopmentParam, id, enc, dec);
  }

  /** The production redirect URL comes back through the `game` parameter. */
  lemma ProductionRoundTrip(id: string, enc: string -> string, dec: string -> string)
    requires IsUriCodec(enc, dec)
    ensures ParseQuery(QueryOf(ProductionPrefix + enc(id)), dec) == [("game", id)]
  {
    ProductionPrefixSplits();
    QueryRoundTrip(ProductionPage, ProductionParam, id, enc, dec);
  }

  /** A lone non-empty parameter of either name is the game id. */
  lemma GameIdOfSingleParam(name: string, id: string)
    requires name == "gameId" || name == "game"
    requires id != ""
    ensures GameIdFrom([(name, id)]) == id
  {
    assert Get([(name, id)], name) == Some(id);
  }

  /** On `localhost` the redirect URL built for a listed id leads back to
      this page (`/download-handler`), which reads that same id from its
      `gameId` parameter and finds the request valid. */
  lemma RedirectRoundTrip(id: string, enc: string -> string, dec: string -> string)
    requires IsUriCodec(enc, dec)
    requires id in ListedIds()
    ensures GameIdFrom(ParseQuery(QueryOf(GetRedirectUrl(id, "localhost", enc)), dec)) == id
    ensures IsValidRedirect(GameIdFrom(ParseQuery(QueryOf(GetRedirectUrl(id, "localhost", enc)), dec)))
  {
    ListedIdsNonEmpty(id);
    DevelopmentRoundTrip(id, enc, dec);
    GameIdOfSingleParam("gameId", id);
  }

  // ---------------------------------------------------------------------
  // The countdown
  // ---------------------------------------------------------------------

  const MissingUrlPrefix := "No download URL found for game: "
  const RedirectFailedMessage := "Failed to redirect to download URL. Please use the manual download button below."

  /** One run of the interval's state updater: a value above 1 goes down by
      one; a value of 1 or less becomes 0 and fires the redirect. */
  function CountdownStep(prev: int): (r: (int, bool))
    ensures r.1 <==> prev <= 1
    ensures r.1 ==> r.0 == 0
    ensures !r.1 ==> r.0 == prev - 1 && r.0 >= 1
  {
    if prev <= 1 then (0, true) else (prev - 1, false)
  }

  /** The countdown shown after `k` ticks from the initial 5, the interval
      being stopped by the tick that fires. */
  function CountdownAfter(k: nat): int
  {
    if k == 0 then 5
    else if CountdownAfter(k - 1) == 0 then 0
    else CountdownStep(CountdownAfter(k - 1)).0
  }

  /** The countdown reads 5, 4, 3, 2, 1 and then stays at 0; it is never negative. */
  lemma {:induction false} CountdownValues(k: nat)
    ensures CountdownAfter(k) == if k <= 5 then 5 - k else 0
  {
    if k > 0 {
      CountdownValues(k - 1);
    }
  }

  /** Of the ticks of a running countdown, exactly the fifth fires the redirect. */
  lemma FifthTickFires(k: nat)
    requires 1 <= k <= 5
    ensures CountdownStep(CountdownAfter(k - 1)).1 <==> k == 5
  {
    CountdownValues(k - 1);
  }

  /** The page's state. `location` is the address the browser was sent to. */
  class DownloadHandlerPage {
    const gameId: string
    const downloadUrl: string
    var countdown: int
    var redirected: bool
    var error: Option<string>
    var timerRunning: bool
    var location: Option<string>

    ghost predicate Valid()
      reads this
    {
      && downloadUrl == GetDownloadUrl(gameId)
      && 0 <= countdown <= 5
      && (timerRunning ==> downloadUrl != "" && !redirected && 1 <= countdown)
      && (redirected ==> location == Some(downloadUrl) && !timerRunning && countdown == 0)
      && (location.Some? ==> redirected)
    }

    /** Mounting the page with the parsed query: the id with its fallback, the
        URL, and the first run of the countdown effect, which starts the
        interval for a valid id and reports a missing URL for an unknown one. */
    constructor Mount(params: seq<(string, string)>)
      ensures Valid()
      ensures gameId == GameIdFrom(params)
      ensures countdown == 5 && !redirected && location == None
      ensures timerRunning <==> IsValidRedirect(gameId)
      ensures error == (if gameId != "" && downloadUrl == "" then Some(MissingUrlPrefix + gameId) else None)
    {
      gameId := GameIdFrom(params);
      downloadUrl := GetDownloadUrl(GameIdFrom(params));
      countdown := 5;
      redirected := false;
      location := None;
      new;
      if downloadUrl != "" && !redirected {
        timerRunning := true;
        error := None;
      } else if downloadUrl == "" && gameId != "" {
        timerRunning := false;
        error := Some(MissingUrlPrefix + gameId);
      } else {
        timerRunning := false;
        error := None;
      }
    }

    /** One interval tick. When it fires it stops the interval and assigns the
        URL to `window.location.href`; `navigationThrows` says whether that
        assignment raised, in which case the page shows the manual-download
        error instead of being marked redirected. */
    method Tick(navigationThrows: bool)
      requires Valid() && timerRunning
      modifies this
      ensures Valid()
      ensures (countdown, !timerRunning) == CountdownStep(old(countdown))
      ensures old(countdown) > 1 ==>
        redirected == old(redirected) && error == old(error) && location == old(location)
      ensures old(countdown) <= 1 && !navigationThrows ==>
        redirected && location == Some(downloadUrl) && error == old(error)
      ensures old(countdown) <= 1 && navigationThrows ==>
        !redirected && location == old(location) && error == Some(RedirectFailedMessage)
    {
      var step := CountdownStep(countdown);
      if step.1 {
        timerRunning := false;
        if navigationThrows {
          error := Some(RedirectFailedMessage);
        } else {
          location := Some(downloadUrl);
          redirected := true;
        }
      }
      countdown := step.0;
    }
  }

  /** A valid request, left alone, is redirected after five ticks. */
  method RunToRedirect(params: seq<(string, string)>) returns (page: DownloadHandlerPage)
    requires IsValidRedirect(GameIdFrom(params))
    ensures page.redirected && page.countdown == 0 && !page.timerRunning
    ensures page.location == Some(GetDownloadUrl(GameIdFrom(params)))
  {
    page := new DownloadHandlerPage.Mount(params);
    var ticks := 0;
    while page.timerRunning
      invariant page.Valid() && 0 <= ticks <= 5
      invariant page.gameId == GameIdFrom(params)
      invariant page.timerRunning ==> page.countdown == 5 - ticks
      invariant !page.timerRunning ==> page.redirected
      decreases page.countdown, page.timerRunning
    {
      page.Tick(false);
      ticks := ticks + 1;
    }
  }
}
