/** The download-locker configuration: the table from game id to download URL,
    the redirect URL handed to the offer-wall locker, and the per-game locker
    configuration built from it. */
module LockerConfig {
  import opened Games

  /** The id of row `k` of `DOWNLOAD_URLS`. */
  function ListedId(k: int): string
    requires 0 <= k < 12
  {
    match k
    case 0 => "clash-of-clans"
    case 1 => "free-fire"
    case 2 => "clash-royale"
    case 3 => "candy-crush"
    case 4 => "pubg-mobile"
    case 5 => "pokemon-go"
    case 6 => "subway-surfers"
    case 7 => "genshin-impact"
    case 8 => "roblox"
    case 9 => "among-us"
    case 10 => "minecraft"
    case _ => "baseball-9"
  }

  const DownloadBase := "https://dl.example.com/games/"

  /** The URL every row of the table spells out: base, id, ".apk". */
  function ApkUrl(id: string): string
  {
    DownloadBase + id + ".apk"
  }

  /** Row `k` of `DOWNLOAD_URLS`: a game id and its download URL. */
  function DownloadEntry(k: int): (string, string)
    requires 0 <= k < 12
  {
    (ListedId(k), ApkUrl(ListedId(k)))
  }

  /** The ids that have a download URL, in the order of the table. */
  function ListedIds(): (ids: seq<string>)
    ensures |ids| == 12
    ensures forall k :: 0 <= k < 12 ==> ids[k] == DownloadEntry(k).0
  {
    seq(12, k requires 0 <= k < 12 => DownloadEntry(k).0)
  }

  /** No id has two rows. */
  lemma ListedIdsDistinct()
    ensures forall i, j :: 0 <= i < j < 12 ==> DownloadEntry(i).0 != DownloadEntry(j).0
  {
  }

  /** `DOWNLOAD_URLS` as a map from id to URL. */
  function DownloadUrls(): map<string, string>
  {
    ListedIdsDistinct();
    map k | 0 <= k < 12 :: DownloadEntry(k).0 := DownloadEntry(k).1
  }

  /** The table has exactly the listed ids, each with the URL of its row. */
  lemma DownloadUrlsKeys()
    ensures forall id :: id in DownloadUrls() <==> id in ListedIds()
    ensures forall k :: 0 <= k < 12 ==> DownloadUrls()[DownloadEntry(k).0] == DownloadEntry(k).1
  {
    ListedIdsDistinct();
    forall id | id in ListedIds()
      ensures id in DownloadUrls()
    {
      var k :| 0 <= k < 12 && ListedIds()[k] == id;
    }
  }

  /** Every table entry is the base URL, then the id, then ".apk". */
  lemma DownloadUrlsShape()
    ensures forall id :: id in DownloadUrls() ==> DownloadUrls()[id] == ApkUrl(id)
  {
    DownloadUrlsKeys();
    forall id | id in DownloadUrls()
      ensures DownloadUrls()[id] == ApkUrl(id)
    {
      var k :| 0 <= k < 12 && ListedIds()[k] == id;
    }
  }

  /** `getDownloadUrl`: the table entry, or "" for an id without one. This is
      the own-property lookup the table is meant to provide; see
      `GetDownloadUrlAsWritten` for what the `record[id] || ""` expression
      really yields. */
  function GetDownloadUrl(gameId: string): (url: string)
    ensures url != "" <==> gameId in ListedIds()
    ensures url != "" ==> url == DownloadBase + gameId + ".apk"
  {
    DownloadUrlsKeys();
    DownloadUrlsShape();
    if gameId in DownloadUrls() then DownloadUrls()[gameId] else ""
  }

  /** A JavaScript value read from the table object: a string, `undefined`,
      or one of the members every object literal inherits from
      `Object.prototype` (functions, or the prototype itself for `__proto__`),
      all of which are truthy. */
  datatype JsValue = Str(s: string) | Undefined | Inherited

  /** The members of `Object.prototype` reachable by name from an object literal. */
  predicate IsObjectPrototypeMember(name: string)
  {
    || name == "constructor" || name == "hasOwnProperty" || name == "isPrototypeOf"
    || name == "propertyIsEnumerable" || name == "toString" || name == "toLocaleString"
    || name == "valueOf" || name == "__proto__" || name == "__defineGetter__"
    || name == "__defineSetter__" || name == "__lookupGetter__" || name == "__lookupSetter__"
  }

  /** `DOWNLOAD_URLS[gameId]`: the own entry, else an inherited member, else `undefined`. */
  function PropertyLookup(gameId: string): (v: JsValue)
    ensures v.Str? <==> gameId in DownloadUrls()
    ensures v.Inherited? <==> gameId !in DownloadUrls() && IsObjectPrototypeMember(gameId)
  {
    if gameId in DownloadUrls() then Str(DownloadUrls()[gameId])
    else if IsObjectPrototypeMember(gameId) then Inherited
    else Undefined
  }

  /** `DOWNLOAD_URLS[gameId] || ""` as written: a truthy inherited member
      passes through the `||`, so the result is not always a string. */
  function GetDownloadUrlAsWritten(gameId: string): (v: JsValue)
    ensures v.Str? ==> v.s == GetDownloadUrl(gameId)
    ensures !v.Str? <==> IsObjectPrototypeMember(gameId) && gameId !in DownloadUrls()
  {
    match PropertyLookup(gameId)
    case Str(s) => Str(s)
    case Undefined => Str("")
    case Inherited => Inherited
  }

  /** The landing page of the production site and the parameter it reads. */
  const ProductionPage := "https://gamevault-six.vercel.app/"
  const ProductionParam := "game"
  /** The download handler of the development server and its parameter. */
  const DevelopmentPage := "/download-handler"
  const DevelopmentParam := "gameId"

  /** `https://gamevault-six.vercel.app/?game=` */
  const ProductionPrefix := ProductionPage + "?" + ProductionParam + "="
  /** `/download-handler?gameId=` */
  const DevelopmentPrefix := DevelopmentPage + "?" + DevelopmentParam + "="

  /** The characters `encodeURIComponent` leaves as they are. */
  predicate IsUriUnreserved(c: char)
  {
    ('A' <= c <= 'Z') || ('a' <= c <= 'z') || ('0' <= c <= '9')
    || c == '-' || c == '_' || c == '.' || c == '!' || c == '~' || c == '*'
    || c == '\'' || c == '(' || c == ')'
  }

  /** What is known of `encodeURIComponent` (`enc`) and of the percent-decoding
      that reads a query value back (`dec`): decoding undoes encoding, an
      encoding consists of unreserved characters and `%` only, and a string of
      unreserved characters encodes to itself. */
  ghost predicate IsUriCodec(enc: string -> string, dec: string -> string)
  {
    && (forall s :: dec(enc(s)) == s)
    && (forall s, k :: 0 <= k < |enc(s)| ==> IsUriUnreserved(enc(s)[k]) || enc(s)[k] == '%')
    && (forall s :: (forall k :: 0 <= k < |s| ==> IsUriUnreserved(s[k])) ==> enc(s) == s)
  }

  /** The prefix `getRedirectUrl` uses on a given host. */
  function RedirectPrefix(hostname: string): string
  {
    if hostname != "localhost" then ProductionPrefix else DevelopmentPrefix
  }

  /** `getRedirectUrl`: the production landing page with a `game` parameter,
      or, on `localhost`, the download handler with a `gameId` parameter;
      the id is passed through `enc` (`encodeURIComponent`). */
  function GetRedirectUrl(gameId: string, hostname: string, enc: string -> string): (url: string)
    ensures hostname != "localhost" ==> url == ProductionPrefix + enc(gameId)
    ensures hostname == "localhost" ==> url == DevelopmentPrefix + enc(gameId)
  {
    var isProduction := hostname != "localhost";
    if isProduction then ProductionPrefix + enc(gameId) else DevelopmentPrefix + enc(gameId)
  }

  /** On either host, distinct ids give distinct redirect URLs. */
  lemma RedirectUrlInjective(a: string, b: string, hostname: string,
                             enc: string -> string, dec: string -> string)
    requires IsUriCodec(enc, dec)
    requires GetRedirectUrl(a, hostname, enc) == GetRedirectUrl(b, hostname, enc)
    ensures a == b
  {
    var prefix := RedirectPrefix(hostname);
    var ua, ub := GetRedirectUrl(a, hostname, enc), GetRedirectUrl(b, hostname, enc);
    assert ua == prefix + enc(a) && ub == prefix + enc(b);
    assert enc(a) == ua[|prefix|..];
    assert enc(b) == ub[|prefix|..];
    assert dec(enc(a)) == a && dec(enc(b)) == b;
  }

  /** `LockerConfig`: only the redirect URL. */
  datatype LockerConfig = LockerConfig(redirectUrl: string)

  /** `getLockerConfigForGame`: the configuration of a game is its redirect URL. */
  function GetLockerConfigForGame(game: GameResource, hostname: string, enc: string -> string): (config: LockerConfig)
    ensures config == LockerConfig(GetRedirectUrl(game.id, hostname, enc))
  {
    LockerConfig(GetRedirectUrl(game.id, hostname, enc))
  }
}
