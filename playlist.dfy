/**
 * Playlist files: the `.txt` name filter (app.py lines 97, 112, 169) and the line
 * parser of `show_playlist` (lines 179-185).
 */
module Playlist {
  import opened Text
  import opened Seqs

  /** The suffix an uploaded or listed playlist file must have. */
  const PlaylistSuffix: string := ".txt"

  /** One `title:url` line of a playlist file, both halves trimmed. */
  datatype PlaylistEntry = PlaylistEntry(title: string, url: string)

  /** `f.endswith(".txt")`. */
  predicate IsPlaylistName(name: string) {
    EndsWith(name, PlaylistSuffix)
  }

  /** `[f for f in os.listdir(UPLOAD_FOLDER) if f.endswith(".txt")]`. */
  function PlaylistNames(listing: seq<string>): (r: seq<string>)
    ensures |r| <= |listing|
    ensures forall i :: 0 <= i < |r| ==> IsPlaylistName(r[i]) && r[i] in listing
  {
    Filter(listing, IsPlaylistName)
  }

  /** `":" in line`: the lines the parser keeps. */
  predicate HasSeparator(line: string) {
    ':' in line
  }

  /** `title, url = line.strip().split(":", 1)`, then each half stripped. */
  function ParseLine(line: string): PlaylistEntry
    requires HasSeparator(line)
  {
    StripKeeps(line, ':');
    var s := Strip(line);
    var k := IndexOf(s, ':');
    PlaylistEntry(Strip(s[..k]), Strip(s[k + 1..]))
  }

  /** Stripping only removes characters, so it cannot bring in a separator. */
  lemma StripWithin(s: string, c: char)
    requires c in Strip(s)
    ensures c in s
  {
    var pre, post := StripCuts(s);
  }

  /** `s` is `title + ":" + url` split at its first ':'. */
  ghost predicate SplitsAt(s: string, title: string, url: string) {
    s == title + ":" + url && ':' !in title
  }

  /** A string splits at its first ':' in only one way. */
  lemma SplitsAtUnique(s: string, t1: string, u1: string, t2: string, u2: string)
    requires SplitsAt(s, t1, u1) && SplitsAt(s, t2, u2)
    ensures t1 == t2 && u1 == u2
  {
    SplitJoinedHalves(t1, u1);
    SplitJoinedHalves(t2, u2);
  }

  /**
   * A kept line, stripped, splits at its first ':' into a raw title and a raw URL,
   * and the entry holds the two halves stripped; so the title never contains ':'.
   */
  lemma ParseLineSplits(line: string)
    requires HasSeparator(line)
    ensures exists rawTitle, rawUrl :: SplitsAt(Strip(line), rawTitle, rawUrl)
              && ParseLine(line) == PlaylistEntry(Strip(rawTitle), Strip(rawUrl))
    ensures ':' !in ParseLine(line).title
  {
    var t, u := ParseLineHalves(line);
    if ':' in ParseLine(line).title {
      StripWithin(t, ':');
    }
  }

  lemma ParseLineHalves(line: string) returns (t: string, u: string)
    requires HasSeparator(line)
    ensures SplitsAt(Strip(line), t, u) && ParseLine(line) == PlaylistEntry(Strip(t), Strip(u))
  {
    var s := Strip(line);
    assert ':' in s by {
      StripKeeps(line, ':');
    }
    var k := IndexOf(s, ':');
    t, u := s[..k], s[k + 1..];
    assert SplitsAt(s, t, u) by {
      SplitsAtFirst(s, k);
    }
  }

  /** Cutting at the first ':' is a split of the string there. */
  lemma SplitsAtFirst(s: string, k: nat)
    requires k < |s| && s[k] == ':' && ':' !in s[..k]
    ensures SplitsAt(s, s[..k], s[k + 1..])
  {
    SplitAround(s, k);
  }

  /**
   * The entries the loop of `show_playlist` appends: lines without ':' are dropped
   * and every other line gives one entry, in the order of the lines.
   */
  function ParsedLines(lines: seq<string>): seq<PlaylistEntry> {
    MapAll(Filter(lines, HasSeparator), ParseLine)
  }

  /** Parsing works line by line, so the entries keep the order of their lines. */
  lemma ParsedLinesAppend(a: seq<string>, b: seq<string>)
    ensures ParsedLines(a + b) == ParsedLines(a) + ParsedLines(b)
  {
    FilterAppend(a, b, HasSeparator);
    MapAllAppend(Filter(a, HasSeparator), Filter(b, HasSeparator), ParseLine);
  }

  lemma ParsedSingleLine(line: string)
    ensures ParsedLines([line]) == if HasSeparator(line) then [ParseLine(line)] else []
  {
    assert Filter([line], HasSeparator) == if HasSeparator(line) then [line] else [];
  }

  /** The loop `for line in f: if ":" in line: ... entries.append(...)`. */
  method ParsePlaylist(lines: seq<string>) returns (entries: seq<PlaylistEntry>)
    ensures entries == ParsedLines(lines)
  {
    entries := [];
    for i := 0 to |lines|
      invariant entries == ParsedLines(lines[..i])
    {
      var line := lines[i];
      assert lines[..i + 1] == lines[..i] + [line];
      ParsedLinesAppend(lines[..i], [line]);
      ParsedSingleLine(line);
      if ':' in line {
        entries := entries + [ParseLine(line)];
      }
    }
    assert lines[..|lines|] == lines;
  }

  /** An entry written back as a line of a playlist file. */
  function FormatLine(e: PlaylistEntry): string {
    e.title + ":" + e.url + "\n"
  }

  lemma StripFormatLine(e: PlaylistEntry)
    requires Trimmed(e.title) && Trimmed(e.url)
    ensures Strip(FormatLine(e)) == e.title + ":" + e.url
  {
    var s := e.title + ":" + e.url;
    assert FormatLine(e) == s + "\n";
    assert s[|e.title|] == ':';
    assert s[0] == if e.title == [] then ':' else e.title[0];
    assert s[|s| - 1] == if e.url == [] then ':' else e.url[|e.url| - 1];
    StripLine(s);
  }

  /** Joining two halves at a ':' that the first half lacks is undone by the split. */
  lemma SplitJoinedHalves(t: string, u: string)
    requires ':' !in t
    ensures var s := t + ":" + u; ':' in s && IndexOf(s, ':') == |t| && s[..|t|] == t && s[|t| + 1..] == u
  {
    var s := t + ":" + u;
    assert s[|t|] == ':';
    assert s[..|t|] == t;
    IndexOfFirst(s, ':', |t|);
    assert s[|t| + 1..] == u;
  }

  /**
   * Parsing inverts formatting for every entry whose halves carry no surrounding
   * whitespace and whose title has no ':'.
   */
  lemma ParseFormatLine(e: PlaylistEntry)
    requires Trimmed(e.title) && Trimmed(e.url) && ':' !in e.title
    ensures HasSeparator(FormatLine(e))
    ensures ParseLine(FormatLine(e)) == e
  {
    StripFormatLine(e);
    SplitJoinedHalves(e.title, e.url);
    StripWithin(FormatLine(e), ':');
    StripTrimmed(e.title);
    StripTrimmed(e.url);
  }

  /**
   * A file of two well-formed lines around a line without ':' (such as
   * `A:http://x`, `noseparator`, `B:http://y`) yields exactly the two entries.
   */
  lemma ParsedSkipsMalformed(a: PlaylistEntry, junk: string, b: PlaylistEntry)
    requires Trimmed(a.title) && Trimmed(a.url) && ':' !in a.title
    requires Trimmed(b.title) && Trimmed(b.url) && ':' !in b.title
    requires ':' !in junk
    ensures ParsedLines([FormatLine(a), junk, FormatLine(b)]) == [a, b]
  {
    ParsedThreeLines(FormatLine(a), junk, FormatLine(b));
    ParsedFormatted(a);
    ParsedFormatted(b);
    ParsedSingleLine(junk);
  }

  lemma ParsedFormatted(e: PlaylistEntry)
    requires Trimmed(e.title) && Trimmed(e.url) && ':' !in e.title
    ensures ParsedLines([FormatLine(e)]) == [e]
  {
    ParseFormatLine(e);
    ParsedSingleLine(FormatLine(e));
  }

  lemma ParsedThreeLines(x: string, y: string, z: string)
    ensures ParsedLines([x, y, z]) == ParsedLines([x]) + ParsedLines([y]) + ParsedLines([z])
  {
    assert [x, y, z] == [x] + [y] + [z];
    ParsedLinesAppend([x] + [y], [z]);
    ParsedLinesAppend([x], [y]);
  }
}
