/**
 * The "recently played" list: `save_to_recent` (app.py lines 58-79) and the emoji
 * backfill of the home and recent pages (lines 91-94 and 108-110).
 */
module Recency {
  import opened Wrappers
  import opened Seqs

  /**
   * One object of the recency file. `emoji` is `None` for an object stored without
   * an "emoji" key; entries this program writes always carry one.
   */
  datatype Entry = Entry(title: string, url: string, emoji: Option<string>)

  /** `EMOJIS`, in the source's order. */
  const Emojis: seq<string> := [
    "\U{1F3AF}", "\U{1F4D8}", "\U{1F4DA}", "\U{1F4FA}", "\U{1F9E0}", "\U{1F393}",
    "\U{1F525}", "\U{1F511}", "\U{1F4A1}", "\U{1F300}", "\U{1F4FC}", "\U{1F3AC}"
  ]

  /** The most entries the file keeps after a recording. */
  const Capacity: nat := 20

  /**
   * `hash(url) % len(EMOJIS)`. Python's `%` by a positive divisor is never negative,
   * as Dafny's is, so the index is in range for every hash value, negative ones included.
   */
  function EmojiIndex(url: string, hash: string -> int): (i: nat)
    ensures i < |Emojis| == 12
  {
    hash(url) % |Emojis|
  }

  /** The emoji for a URL: it depends only on the URL (through the process's hash). */
  function EmojiFor(url: string, hash: string -> int): (e: string)
    ensures e in Emojis
  {
    Emojis[EmojiIndex(url, hash)]
  }

  predicate HasOtherUrl(url: string, e: Entry) {
    e.url != url
  }

  /** `[item for item in recent if item["url"] != url]`. */
  function WithoutUrl(recent: seq<Entry>, url: string): (r: seq<Entry>)
    ensures |r| <= |recent|
    ensures forall i :: 0 <= i < |r| ==> r[i].url != url
  {
    Filter(recent, e => HasOtherUrl(url, e))
  }

  /** The list `save_to_recent` writes back for a loaded list `recent`. */
  function Recorded(recent: seq<Entry>, title: string, url: string, hash: string -> int): (r: seq<Entry>)
    ensures 1 <= |r| <= Capacity
    ensures r[0] == Entry(title, url, Some(EmojiFor(url, hash)))
  {
    Take([Entry(title, url, Some(EmojiFor(url, hash)))] + WithoutUrl(recent, url), Capacity)
  }

  /** What a load yields: the stored list, or an empty one when the file is missing or unreadable. */
  function Loaded(file: Option<seq<Entry>>): seq<Entry> {
    file.GetOr([])
  }

  /** No two entries share a URL. */
  ghost predicate UniqueUrls(s: seq<Entry>) {
    forall i, j :: 0 <= i < j < |s| ==> s[i].url != s[j].url
  }

  /**
   * After recording, the list holds between 1 and 20 entries, the new entry with its
   * emoji is first, no other entry has its URL, and the rest are the earlier entries
   * with other URLs, in their old order, cut to 19.
   */
  lemma RecordedShape(recent: seq<Entry>, title: string, url: string, hash: string -> int)
    ensures var r := Recorded(recent, title, url, hash);
      && 1 <= |r| <= Capacity
      && r[0] == Entry(title, url, Some(EmojiFor(url, hash)))
      && r[1..] == Take(WithoutUrl(recent, url), Capacity - 1)
      && (forall i :: 1 <= i < |r| ==> r[i].url != url && r[i] in recent)
  {
    var r := Recorded(recent, title, url, hash);
    var w := WithoutUrl(recent, url);
    assert r[1..] == Take(w, Capacity - 1);
    forall i | 1 <= i < |r|
      ensures r[i].url != url && r[i] in recent
    {
      assert r[i] == w[i - 1];
    }
  }

  /** Recording a URL that is neither stored nor over the bound simply prepends it. */
  lemma RecordedFresh(recent: seq<Entry>, title: string, url: string, hash: string -> int)
    requires forall i :: 0 <= i < |recent| ==> recent[i].url != url
    requires |recent| < Capacity
    ensures Recorded(recent, title, url, hash) == [Entry(title, url, Some(EmojiFor(url, hash)))] + recent
  {
    FilterKeepsAll(recent, e => HasOtherUrl(url, e));
  }

  /** Filtering by URL keeps the URLs distinct. */
  lemma {:induction false} WithoutUrlUnique(s: seq<Entry>, url: string)
    requires UniqueUrls(s)
    ensures UniqueUrls(WithoutUrl(s, url))
  {
    if s != [] {
      var tail := WithoutUrl(s[1..], url);
      assert UniqueUrls(s[1..]) by {
        forall i, j | 0 <= i < j < |s[1..]| ensures s[1..][i].url != s[1..][j].url {
          assert s[1..][i] == s[i + 1] && s[1..][j] == s[j + 1];
        }
      }
      WithoutUrlUnique(s[1..], url);
      forall k | 0 <= k < |tail| ensures tail[k].url != s[0].url {
        var m :| 0 <= m < |s[1..]| && s[1..][m] == tail[k];
        assert s[m + 1] == tail[k];
      }
      var head := if HasOtherUrl(url, s[0]) then [s[0]] else [];
      assert WithoutUrl(s, url) == head + tail;
    }
  }

  /** If the loaded list has distinct URLs, so has the recorded one. */
  lemma RecordedUnique(recent: seq<Entry>, title: string, url: string, hash: string -> int)
    requires UniqueUrls(recent)
    ensures UniqueUrls(Recorded(recent, title, url, hash))
  {
    WithoutUrlUnique(recent, url);
    var w := WithoutUrl(recent, url);
    var full := [Entry(title, url, Some(EmojiFor(url, hash)))] + w;
    forall i, j | 0 <= i < j < |full| ensures full[i].url != full[j].url {
      if i > 0 {
        assert full[i] == w[i - 1] && full[j] == w[j - 1];
      } else {
        assert full[j] == w[j - 1];
      }
    }
  }

  /**
   * Recording the same URL twice equals recording it once with the later title:
   * one entry for it, at the front, and the other entries as after the first recording.
   */
  lemma RecordedTwice(recent: seq<Entry>, t1: string, t2: string, url: string, hash: string -> int)
    ensures Recorded(Recorded(recent, t1, url, hash), t2, url, hash) == Recorded(recent, t2, url, hash)
  {
    RecordedRemovable(recent, t1, url, hash);
    var e2 := Entry(t2, url, Some(EmojiFor(url, hash)));
    var rest := Take(WithoutUrl(recent, url), Capacity - 1);
    assert Recorded(Recorded(recent, t1, url, hash), t2, url, hash) == [e2] + rest;
  }

  /** Dropping the recorded URL again leaves the other entries that the recording kept. */
  lemma RecordedRemovable(recent: seq<Entry>, title: string, url: string, hash: string -> int)
    ensures WithoutUrl(Recorded(recent, title, url, hash), url) == Take(WithoutUrl(recent, url), Capacity - 1)
  {
    var keep := e => HasOtherUrl(url, e);
    var e := Entry(title, url, Some(EmojiFor(url, hash)));
    var w := WithoutUrl(recent, url);
    var rest := Take(w, Capacity - 1);
    assert Recorded(recent, title, url, hash) == [e] + rest;
    FilterAppend([e], rest, keep);
    assert Filter([e], keep) == [];
    assert forall i :: 0 <= i < |rest| ==> keep(rest[i]) by {
      forall i | 0 <= i < |rest| ensures keep(rest[i]) {
        assert rest[i] == w[i];
      }
    }
    FilterKeepsAll(rest, keep);
  }

  /** The entry a page shows for a stored one: the stored emoji if any, else the URL's emoji. */
  function WithEmoji(e: Entry, hash: string -> int): (r: Entry)
    ensures r.title == e.title && r.url == e.url && r.emoji.Some?
    ensures e.emoji.Some? ==> r == e
  {
    if e.emoji.Some? then e else e.(emoji := Some(EmojiFor(e.url, hash)))
  }

  /** The list after the backfill loop: every entry given an emoji. */
  function Backfilled(items: seq<Entry>, hash: string -> int): (r: seq<Entry>)
    ensures |r| == |items|
  {
    seq(|items|, i requires 0 <= i < |items| => WithEmoji(items[i], hash))
  }

  /**
   * The loop `for item in recent: if "emoji" not in item: item["emoji"] = ...`:
   * same length, titles and URLs untouched, stored emoji kept, missing ones
   * filled from the URL.
   */
  method Backfill(items: seq<Entry>, hash: string -> int) returns (r: seq<Entry>)
    ensures r == Backfilled(items, hash)
    ensures |r| == |items|
    ensures forall i :: 0 <= i < |r| ==>
      && r[i].title == items[i].title && r[i].url == items[i].url
      && r[i].emoji == (if items[i].emoji.Some? then items[i].emoji else Some(EmojiFor(items[i].url, hash)))
  {
    r := items;
    for i := 0 to |r|
      invariant |r| == |items|
      invariant forall k :: 0 <= k < i ==> r[k] == WithEmoji(items[k], hash)
      invariant forall k :: i <= k < |r| ==> r[k] == items[k]
    {
      if r[i].emoji.None? {
        r := r[i := r[i].(emoji := Some(EmojiFor(r[i].url, hash)))];
      }
    }
  }

  lemma BackfilledAppend(a: seq<Entry>, b: seq<Entry>, hash: string -> int)
    ensures Backfilled(a + b, hash) == Backfilled(a, hash) + Backfilled(b, hash)
  {
  }

  /** Backfilling keeps URLs, so it commutes with dropping a URL. */
  lemma {:induction false} BackfillWithoutUrl(s: seq<Entry>, url: string, hash: string -> int)
    ensures Backfilled(WithoutUrl(s, url), hash) == WithoutUrl(Backfilled(s, hash), url)
  {
    if s != [] {
      var keep := e => HasOtherUrl(url, e);
      var head := if HasOtherUrl(url, s[0]) then [s[0]] else [];
      var b := Backfilled(s, hash);
      var b0 := WithEmoji(s[0], hash);
      assert WithoutUrl(s, url) == head + WithoutUrl(s[1..], url);
      BackfilledAppend(head, WithoutUrl(s[1..], url), hash);
      BackfillWithoutUrl(s[1..], url, hash);
      assert b == [b0] + Backfilled(s[1..], hash);
      FilterAppend([b0], Backfilled(s[1..], hash), keep);
      assert Filter([b0], keep) == Backfilled(head, hash);
    }
  }

  /**
   * The page shows the same entries whether the stored list had its emoji filled in
   * before the recording or only when it is shown: a legacy entry's emoji is the one
   * its URL would be given.
   */
  lemma BackfillRecorded(recent: seq<Entry>, title: string, url: string, hash: string -> int)
    ensures Backfilled(Recorded(recent, title, url, hash), hash)
         == Recorded(Backfilled(recent, hash), title, url, hash)
  {
    var e := Entry(title, url, Some(EmojiFor(url, hash)));
    BackfillWithoutUrl(recent, url, hash);
    var w := WithoutUrl(recent, url);
    assert Backfilled([e] + w, hash) == [e] + Backfilled(w, hash);
  }

  /** Slicing then backfilling (the home page) equals backfilling then slicing. */
  lemma BackfillTake(s: seq<Entry>, n: nat, hash: string -> int)
    ensures Backfilled(Take(s, n), hash) == Take(Backfilled(s, hash), n)
  {
  }

  /** The recency file as state; `None` stands for a file that is missing or cannot be read. */
  class RecentStore {
    var file: Option<seq<Entry>>

    constructor (contents: Option<seq<Entry>>)
      ensures file == contents
    {
      file := contents;
    }

    /**
     * `save_to_recent(title, url)`: load (empty on failure), drop the URL, prepend the
     * new entry with its emoji, keep 20, write back.
     */
    method SaveToRecent(title: string, url: string, hash: string -> int)
      modifies this
      ensures file == Some(Recorded(Loaded(old(file)), title, url, hash))
      ensures 1 <= |file.value| <= Capacity
      ensures file.value[0] == Entry(title, url, Some(EmojiFor(url, hash)))
      ensures forall i :: 1 <= i < |file.value| ==> file.value[i].url != url
      ensures UniqueUrls(Loaded(old(file))) ==> UniqueUrls(file.value)
    {
      var recent := if file.Some? then file.value else [];
      ghost var loaded := recent;
      recent := Filter(recent, e => HasOtherUrl(url, e));
      var entry := Entry(title, url, Some(EmojiFor(url, hash)));
      recent := [entry] + recent;
      recent := Take(recent, Capacity);
      file := Some(recent);
      RecordedShape(loaded, title, url, hash);
      if UniqueUrls(loaded) {
        RecordedUnique(loaded, title, url, hash);
      }
    }
  }
}
