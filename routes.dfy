/**
 * The request handlers of app.py (lines 82-189) with the web framework, the network and
 * the disk taken out: query parameters arrive as optional strings, and the base64
 * decoder, the token signer, the fallback signers, `hash` and `secure_filename` are
 * function parameters.
 */
module Routes {
  import opened Wrappers
  import opened Text
  import opened Seqs
  import opened Classifier
  import opened Recency
  import opened Signing
  import opened Playlist

  /** `not value` for a query parameter: missing or empty. */
  predicate Blank(param: Option<string>) {
    param.None? || param.value == ""
  }

  /** `request.args.get("encrypted", "false").lower() == "true"`. */
  predicate FlagSet(param: Option<string>): (r: bool)
    ensures r ==> param.Some? && |param.value| == 4
  {
    Lower(param.GetOr("false")) == "true"
  }

  /** `c.lower() == l` for an ASCII lower-case letter `l`: `c` is `l` or its capital. */
  predicate FoldsTo(c: char, l: char) {
    c == l || c as int + 32 == l as int
  }

  /** The flag is set exactly by "true" in any mix of upper and lower case. */
  lemma FlagSetExactly(param: Option<string>)
    ensures FlagSet(param) <==>
      param.Some? && |param.value| == 4 &&
      FoldsTo(param.value[0], 't') && FoldsTo(param.value[1], 'r') &&
      FoldsTo(param.value[2], 'u') && FoldsTo(param.value[3], 'e')
  {
    var v := param.GetOr("false");
    if |v| == 4 {
      var w := Lower(v);
      assert w == "true" <==> w[0] == 't' && w[1] == 'r' && w[2] == 'u' && w[3] == 'e';
    }
  }

  /** A signer's answer counts when it is a non-empty string (`if signed:`). */
  predicate Truthy(answer: Option<string>) {
    answer.Some? && answer.value != ""
  }

  // ---------------------------------------------------------------- /get/cp

  /** The JSON reply: `{status: true, url}` or `{status: false, message}`. */
  datatype Response = Ok(url: string) | Err(message: string)

  const NoUrl: string := "No URL provided"
  const InvalidEncrypted: string := "Invalid encrypted URL"
  const Unsupported: string := "Invalid or unsupported video URL"
  const SigningFailed: string := "Failed to sign the video URL."

  /**
   * The URL `get_cp` goes on with: the parameter itself, or when `encrypted` is set
   * the base64url decoding of the parameter padded with "==" (`None` if that fails).
   */
  function Target(raw: string, encrypted: Option<string>, decode: string -> Option<string>): Option<string> {
    if FlagSet(encrypted) then decode(raw + "==") else Some(raw)
  }

  /**
   * `get_cp`: no URL, then decoding, then the whitelist, then the public-asset
   * shortcut, then the token signer, then the fallback signers in order.
   */
  function GetCp(url: Option<string>, encrypted: Option<string>, decode: string -> Option<string>,
                 token: string -> Option<string>, fetch: Fetcher): (r: Response)
    ensures r.Ok? ==> r.url != ""
  {
    if Blank(url) then Err(NoUrl)
    else
      var target := Target(url.value, encrypted, decode);
      if target.None? then Err(InvalidEncrypted)
      else if !IsClassplusUrl(target.value) then Err(Unsupported)
      else if Contains(target.value, PublicAssetDomain) then Ok(target.value)
      else
        var signed := token(target.value);
        if Truthy(signed) then Ok(signed.value)
        else
          var fallback := FirstSigned(SigningApis, target.value, fetch);
          if Truthy(fallback) then Ok(fallback.value) else Err(SigningFailed)
  }

  /** A missing or empty `url` parameter is refused first, whatever else is given. */
  lemma GetCpNoUrl(url: Option<string>, encrypted: Option<string>, decode: string -> Option<string>,
                   token: string -> Option<string>, fetch: Fetcher)
    requires Blank(url)
    ensures GetCp(url, encrypted, decode, token, fetch) == Err(NoUrl)
  {
  }

  /** With `encrypted=true`, a payload the decoder refuses is an error, not a fallback. */
  lemma GetCpBadPayload(url: Option<string>, encrypted: Option<string>, decode: string -> Option<string>,
                        token: string -> Option<string>, fetch: Fetcher)
    requires !Blank(url) && FlagSet(encrypted) && decode(url.value + "==").None?
    ensures GetCp(url, encrypted, decode, token, fetch) == Err(InvalidEncrypted)
  {
  }

  /** A URL outside the whitelist is refused before any signer is asked. */
  lemma GetCpUnsupported(url: Option<string>, encrypted: Option<string>, decode: string -> Option<string>,
                         token: string -> Option<string>, fetch: Fetcher)
    requires !Blank(url) && Target(url.value, encrypted, decode).Some?
    requires !IsClassplusUrl(Target(url.value, encrypted, decode).value)
    ensures GetCp(url, encrypted, decode, token, fetch) == Err(Unsupported)
  {
  }

  /**
   * A whitelisted URL on the public-asset domain comes back unchanged, and the answer
   * is the same for any signers: none of them is consulted.
   */
  lemma GetCpPublicAsset(url: Option<string>, encrypted: Option<string>, decode: string -> Option<string>,
                         token1: string -> Option<string>, fetch1: Fetcher,
                         token2: string -> Option<string>, fetch2: Fetcher)
    requires !Blank(url) && Target(url.value, encrypted, decode).Some?
    requires IsClassplusUrl(Target(url.value, encrypted, decode).value)
    requires Contains(Target(url.value, encrypted, decode).value, PublicAssetDomain)
    ensures GetCp(url, encrypted, decode, token1, fetch1) == Ok(Target(url.value, encrypted, decode).value)
    ensures GetCp(url, encrypted, decode, token1, fetch1) == GetCp(url, encrypted, decode, token2, fetch2)
  {
  }

  /** Otherwise a non-empty answer of the token signer wins, whatever the fallbacks say. */
  lemma GetCpTokenFirst(url: Option<string>, encrypted: Option<string>, decode: string -> Option<string>,
                        token: string -> Option<string>, fetch1: Fetcher, fetch2: Fetcher)
    requires !Blank(url) && Target(url.value, encrypted, decode).Some?
    requires var t := Target(url.value, encrypted, decode).value;
      IsClassplusUrl(t) && !Contains(t, PublicAssetDomain) && Truthy(token(t))
    ensures GetCp(url, encrypted, decode, token, fetch1)
         == Ok(token(Target(url.value, encrypted, decode).value).value)
    ensures GetCp(url, encrypted, decode, token, fetch1) == GetCp(url, encrypted, decode, token, fetch2)
  {
  }

  /**
   * When the token signer fails, the answer is the first accepted fallback reply in
   * the order of `SigningApis`, and "Failed to sign the video URL." when none is.
   */
  lemma GetCpFallback(url: Option<string>, encrypted: Option<string>, decode: string -> Option<string>,
                      token: string -> Option<string>, fetch: Fetcher)
    requires !Blank(url) && Target(url.value, encrypted, decode).Some?
    requires var t := Target(url.value, encrypted, decode).value;
      IsClassplusUrl(t) && !Contains(t, PublicAssetDomain) && !Truthy(token(t))
    ensures var t := Target(url.value, encrypted, decode).value;
      GetCp(url, encrypted, decode, token, fetch)
        == if forall i :: 0 <= i < |SigningApis| ==> !Accepted(fetch(SigningApis[i], t))
           then Err(SigningFailed)
           else Ok(FirstSigned(SigningApis, t, fetch).value)
  {
  }

  /**
   * Every URL the endpoint hands out is either the whitelisted target itself (on the
   * public-asset domain) or an answer a signer gave for that target; every error is
   * one of the four messages.
   */
  lemma GetCpSound(url: Option<string>, encrypted: Option<string>, decode: string -> Option<string>,
                   token: string -> Option<string>, fetch: Fetcher)
    ensures var r := GetCp(url, encrypted, decode, token, fetch);
      r.Err? ==> r.message in {NoUrl, InvalidEncrypted, Unsupported, SigningFailed}
    ensures var r := GetCp(url, encrypted, decode, token, fetch);
      r.Ok? ==> (
        && !Blank(url) && Target(url.value, encrypted, decode).Some?
        && var t := Target(url.value, encrypted, decode).value;
        && IsClassplusUrl(t)
        && (|| (r.url == t && Contains(t, PublicAssetDomain))
            || token(t) == Some(r.url)
            || (exists i :: 0 <= i < |SigningApis| && Accepted(fetch(SigningApis[i], t))
                             && fetch(SigningApis[i], t).value.url == Some(r.url))))
  {
  }

  // ---------------------------------------------------------------- /player

  const UntitledVideo: string := "Untitled Video"

  /**
   * The title `player` records: the given one when it is non-empty, else the
   * second-to-last '/'-segment of the URL, else "Untitled Video".
   */
  function DerivedTitle(title: Option<string>, url: string): string {
    if !Blank(title) then title.value
    else
      var parts := Split(url, '/');
      if |parts| >= 2 then parts[|parts| - 2] else UntitledVideo
  }

  /**
   * A given title is kept; without one, a URL with no '/' is "Untitled Video" and
   * any other URL gives the text between its last two '/' (between the start and
   * the only '/' when there is one).
   */
  lemma DerivedTitleSpec(title: Option<string>, url: string)
    ensures !Blank(title) ==> DerivedTitle(title, url) == title.value
    ensures Blank(title) && '/' !in url ==> DerivedTitle(title, url) == UntitledVideo
    ensures Blank(title) && '/' in url ==>
      '/' !in DerivedTitle(title, url) && SecondToLastSegment(url, '/', DerivedTitle(title, url))
  {
    SplitCount(url, '/');
    if Blank(title) && '/' in url {
      var k := SplitSecondToLast(url, '/');
    }
  }

  /**
   * The URL `player` uses: decoded when `encrypted` is set and the decoder accepts
   * it, and the raw parameter otherwise (a failed decoding is not an error here).
   */
  function PlayerUrl(raw: string, encrypted: Option<string>, decode: string -> Option<string>): string {
    if FlagSet(encrypted) then decode(raw + "==").GetOr(raw) else raw
  }

  datatype PlayerOutcome = RedirectHome | Play(title: string, url: string)

  /** What `player` records: nothing without a URL, else the stripped title and URL. */
  function PlayerRequest(url: Option<string>, encrypted: Option<string>, title: Option<string>,
                         decode: string -> Option<string>): (r: PlayerOutcome)
    ensures r.Play? <==> !Blank(url)
    ensures r.Play? ==> Trimmed(r.title) && Trimmed(r.url)
  {
    if Blank(url) then RedirectHome
    else
      var u := PlayerUrl(url.value, encrypted, decode);
      Play(Strip(DerivedTitle(title, u)), Strip(u))
  }

  /**
   * Unlike `get_cp`, `player` never fails on a bad encrypted payload: it plays and
   * records the raw parameter, and everything it records is stripped.
   */
  lemma PlayerFallsBackToRaw(url: Option<string>, encrypted: Option<string>, title: Option<string>,
                             decode: string -> Option<string>, token: string -> Option<string>, fetch: Fetcher)
    requires !Blank(url) && FlagSet(encrypted) && decode(url.value + "==").None?
    ensures PlayerRequest(url, encrypted, title, decode)
         == Play(Strip(DerivedTitle(title, url.value)), Strip(url.value))
    ensures GetCp(url, encrypted, decode, token, fetch) == Err(InvalidEncrypted)
  {
  }

  /** `player`: a blank URL changes nothing; any other request is recorded. */
  method Player(store: RecentStore, url: Option<string>, encrypted: Option<string>, title: Option<string>,
                decode: string -> Option<string>, hash: string -> int) returns (outcome: PlayerOutcome)
    modifies store
    ensures outcome == PlayerRequest(url, encrypted, title, decode)
    ensures outcome.RedirectHome? ==> store.file == old(store.file)
    ensures outcome.Play? ==> store.file == Some(Recorded(Loaded(old(store.file)), outcome.title, outcome.url, hash))
    ensures outcome.Play? ==> Trimmed(outcome.title) && Trimmed(outcome.url)
  {
    if url.None? || url.value == "" {
      return RedirectHome;
    }
    var u := url.value;
    if FlagSet(encrypted) {
      var decoded := decode(u + "==");
      if decoded.Some? {
        u := decoded.value;
      }
    }
    assert u == PlayerUrl(url.value, encrypted, decode);
    var t := DerivedTitle(title, u);
    outcome := Play(Strip(t), Strip(u));
    assert outcome == PlayerRequest(url, encrypted, title, decode);
    assert Trimmed(outcome.title) && Trimmed(outcome.url);
    store.SaveToRecent(outcome.title, outcome.url, hash);
  }

  // ---------------------------------------------------------------- / and /recent

  /** How many videos and playlists the home page shows. */
  const HomeLimit: nat := 10

  /**
   * `home`: the first ten stored entries with their emoji filled in, and the first
   * ten ".txt" names of the upload directory's listing.
   */
  method Home(store: RecentStore, listing: seq<string>, hash: string -> int)
    returns (videos: seq<Entry>, playlists: seq<string>)
    ensures videos == Backfilled(Take(Loaded(store.file), HomeLimit), hash)
    ensures playlists == Take(PlaylistNames(listing), HomeLimit)
    ensures |videos| <= HomeLimit && |playlists| <= HomeLimit
    ensures forall i :: 0 <= i < |videos| ==> videos[i].emoji.Some? && videos[i].url == Loaded(store.file)[i].url
    ensures forall i :: 0 <= i < |playlists| ==> IsPlaylistName(playlists[i])
  {
    var recent := Take(Loaded(store.file), HomeLimit);
    videos := Backfill(recent, hash);
    playlists := Take(Filter(listing, IsPlaylistName), HomeLimit);
  }

  /** `recent`: every stored entry with its emoji filled in, and every ".txt" name. */
  method Recent(store: RecentStore, listing: seq<string>, hash: string -> int)
    returns (videos: seq<Entry>, playlists: seq<string>)
    ensures videos == Backfilled(Loaded(store.file), hash)
    ensures playlists == PlaylistNames(listing)
    ensures forall i :: 0 <= i < |videos| ==> videos[i].emoji.Some? && videos[i].url == Loaded(store.file)[i].url
    ensures forall i :: 0 <= i < |playlists| ==> IsPlaylistName(playlists[i]) && playlists[i] in listing
  {
    videos := Backfill(Loaded(store.file), hash);
    playlists := Filter(listing, IsPlaylistName);
  }

  /** The home page shows the first ten entries of the recent page, in the same order. */
  lemma HomeIsPrefixOfRecent(file: Option<seq<Entry>>, listing: seq<string>, hash: string -> int)
    ensures Backfilled(Take(Loaded(file), HomeLimit), hash) == Take(Backfilled(Loaded(file), hash), HomeLimit)
  {
    BackfillTake(Loaded(file), HomeLimit, hash);
  }

  // ---------------------------------------------------------------- /upload_playlist

  datatype UploadOutcome = RedirectToPlaylist(filename: string) | Rejected(status: nat, message: string)

  const OnlyTxt: string := "Only .txt files are allowed"

  /**
   * `upload_playlist`: a file part whose name ends in ".txt" is stored under its
   * sanitised name and the client is sent to it; anything else is a 400.
   */
  function UploadPlaylist(filename: Option<string>, sanitize: string -> string): (r: UploadOutcome)
    ensures r.RedirectToPlaylist? ==> filename.Some? && IsPlaylistName(filename.value)
    ensures r.Rejected? ==> r == Rejected(400, OnlyTxt)
  {
    if filename.Some? && filename.value != "" && IsPlaylistName(filename.value)
    then RedirectToPlaylist(sanitize(filename.value))
    else Rejected(400, OnlyTxt)
  }

  /** An upload is accepted exactly when there is a file whose name ends in ".txt". */
  lemma UploadAcceptsTxt(filename: Option<string>, sanitize: string -> string)
    ensures UploadPlaylist(filename, sanitize).RedirectToPlaylist? <==> filename.Some? && IsPlaylistName(filename.value)
    ensures UploadPlaylist(filename, sanitize).Rejected? ==> UploadPlaylist(filename, sanitize) == Rejected(400, OnlyTxt)
  {
  }

  // ---------------------------------------------------------------- /playlist/<filename>

  /** Reading the playlist file: its lines, or the text of the error that stopped the read. */
  datatype ReadResult = Lines(lines: seq<string>) | ReadError(reason: string)

  datatype PlaylistPage = Listing(entries: seq<PlaylistEntry>) | ServerError(status: nat, body: string)

  /** `show_playlist`: the parsed lines, or a 500 carrying the error text. */
  method ShowPlaylist(file: ReadResult) returns (page: PlaylistPage)
    ensures file.Lines? ==> page == Listing(ParsedLines(file.lines))
    ensures file.ReadError? ==> page == ServerError(500, "Error reading playlist: " + file.reason)
  {
    match file
    case ReadError(reason) =>
      page := ServerError(500, "Error reading playlist: " + reason);
    case Lines(lines) =>
      var entries := ParsePlaylist(lines);
      page := Listing(entries);
  }
}
