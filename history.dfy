/** The in-memory part of the notification history of src/history.rs: a
    bounded buffer that drops its oldest entries once it holds more than its limit. */
module History {
  import opened Text

  /** One archived notification. The urgency is kept as its display text and
      the date-time as an already formatted string. */
  datatype HistoryEntry = HistoryEntry(
    id: nat,
    appName: string,
    summary: string,
    body: string,
    urgency: string,
    timestamp: nat,
    datetime: string)

  function Min(a: nat, b: nat): nat
  {
    if a <= b then a else b
  }

  /** The last `n` elements of `s`, or all of `s` when it is shorter. */
  function KeepLast<T>(s: seq<T>, n: nat): (r: seq<T>)
    ensures |r| == Min(n, |s|)
    ensures r == s[|s| - |r|..]
  {
    if |s| <= n then s else s[|s| - n..]
  }

  /** `s` in reverse order. */
  function Reverse<T>(s: seq<T>): (r: seq<T>)
    ensures |r| == |s|
    ensures forall i :: 0 <= i < |s| ==> r[i] == s[|s| - 1 - i]
  {
    if s == [] then [] else [s[|s| - 1]] + Reverse(s[..|s| - 1])
  }

  /** The filter of `search`: the lower-cased query occurs in the lower-cased
      application name, summary or body. */
  predicate EntryMatches(e: HistoryEntry, query: string)
  {
    var q := Lower(query);
    Contains(Lower(e.appName), q) || Contains(Lower(e.summary), q) || Contains(Lower(e.body), q)
  }

  /** The entries of `es` that match `query`, in their stored order. */
  function MatchingEntries(es: seq<HistoryEntry>, query: string): (r: seq<HistoryEntry>)
    ensures |r| <= |es|
    ensures forall e :: e in r <==> e in es && EntryMatches(e, query)
  {
    if es == [] then []
    else
      var rest := MatchingEntries(es[1..], query);
      assert forall e :: e in es <==> e == es[0] || e in es[1..];
      if EntryMatches(es[0], query) then [es[0]] + rest else rest
  }

  /** Filtering keeps the stored order: it distributes over concatenation. */
  lemma {:induction false} MatchingEntriesAppend(a: seq<HistoryEntry>, b: seq<HistoryEntry>, query: string)
    ensures MatchingEntries(a + b, query) == MatchingEntries(a, query) + MatchingEntries(b, query)
  {
    if a != [] {
      assert (a + b)[0] == a[0];
      assert (a + b)[1..] == a[1..] + b;
      MatchingEntriesAppend(a[1..], b, query);
      var ra, rb := MatchingEntries(a[1..], query), MatchingEntries(b, query);
      assert [a[0]] + (ra + rb) == ([a[0]] + ra) + rb;
    } else {
      assert a + b == b;
    }
  }

  /** The empty query matches every entry. */
  lemma {:induction false} MatchingEntriesEmptyQuery(es: seq<HistoryEntry>)
    ensures MatchingEntries(es, []) == es
  {
    if es != [] {
      ContainsEmpty(Lower(es[0].appName));
      MatchingEntriesEmptyQuery(es[1..]);
    }
  }

  /** Adding to a buffer already cut to its limit and cutting again is the
      same as cutting everything added once. */
  lemma KeepLastAppend<T>(s: seq<T>, x: T, n: nat)
    ensures KeepLast(KeepLast(s, n) + [x], n) == KeepLast(s + [x], n)
  {
    var k := KeepLast(s, n);
    if |s| > n && n > 0 {
      assert (k + [x])[|k + [x]| - n..] == (s + [x])[|s + [x]| - n..];
    }
  }

  class History {
    var entries: seq<HistoryEntry>
    var limit: nat

    /** A history over entries loaded from disk; the loaded entries are not
        cut to the limit until the next `Add`. */
    constructor (limit: nat, loaded: seq<HistoryEntry>)
      ensures this.limit == limit && entries == loaded
    {
      this.limit := limit;
      entries := loaded;
    }

    /** `add` without the `save`: append, then drop the oldest entries while
        the buffer is over its limit. */
    method Add(entry: HistoryEntry)
      modifies this
      ensures limit == old(limit)
      ensures entries == KeepLast(old(entries) + [entry], limit)
      ensures |entries| <= limit
      ensures |old(entries)| < limit ==> entries == old(entries) + [entry]
    {
      ghost var full := entries + [entry];
      entries := entries + [entry];
      while |entries| > limit
        invariant limit == old(limit)
        invariant |entries| <= |full|
        invariant entries == full[|full| - |entries|..]
        invariant |entries| >= limit || entries == full
        decreases |entries|
      {
        entries := entries[1..];
      }
    }

    function Len(): (n: nat)
      reads this
      ensures n == |entries|
    {
      |entries|
    }

    function IsEmpty(): (empty: bool)
      reads this
      ensures empty <==> Len() == 0
    {
      entries == []
    }

    /** `recent`: the newest `count` entries, newest first. */
    function Recent(count: nat): (r: seq<HistoryEntry>)
      reads this
      ensures |r| == Min(count, |entries|)
      ensures forall i :: 0 <= i < |r| ==> r[i] == entries[|entries| - 1 - i]
    {
      Reverse(entries)[..Min(count, |entries|)]
    }

    /** `all`: the stored entries, oldest first. */
    function All(): (r: seq<HistoryEntry>)
      reads this
      ensures |r| == Len()
      ensures forall i :: 0 <= i < |r| ==> r[i] == entries[i]
    {
      entries
    }

    /** `search`: the stored entries whose application name, summary or body
        contains the query regardless of case, in stored order. */
    function Search(query: string): (r: seq<HistoryEntry>)
      reads this
      ensures forall e :: e in r <==> e in entries && EntryMatches(e, query)
      ensures query == [] ==> r == entries
      ensures r == MatchingEntries(entries, query)
    {
      MatchingEntriesEmptyQuery(entries);
      MatchingEntries(entries, query)
    }

    /** `clear` without the `save`. */
    method Clear()
      modifies this
      ensures entries == [] && limit == old(limit)
      ensures IsEmpty()
    {
      entries := [];
    }
  }

  // ----- the in-line tests, as scenarios -----

  function TestEntry(id: nat, appName: string, summary: string): HistoryEntry
  {
    HistoryEntry(id, appName, summary, "body", "normal", 1234567890, "2009-02-13 23:31:30 UTC")
  }

  function Ids(es: seq<HistoryEntry>): (ids: seq<nat>)
    ensures |ids| == |es|
    ensures forall i :: 0 <= i < |es| ==> ids[i] == es[i].id
  {
    if es == [] then [] else [es[0].id] + Ids(es[1..])
  }

  /** With limit 3, adding ids 0 to 4 keeps ids 2, 3 and 4 in that order. */
  method LimitEnforcementScenario() returns (len: nat, ids: seq<nat>)
    ensures len == 3 && ids == [2, 3, 4]
  {
    var history := new History(3, []);
    for i := 0 to 5
      invariant history.limit == 3
      invariant |history.entries| == Min(i, 3)
      invariant forall k :: 0 <= k < |history.entries| ==> history.entries[k].id == i - |history.entries| + k
    {
      history.Add(TestEntry(i, "app", "summary"));
    }
    len := history.Len();
    ids := Ids(history.All());
  }

  /** After ids 0 to 9 under limit 100, `recent(3)` gives ids 9, 8 and 7. */
  method RecentScenario() returns (ids: seq<nat>)
    ensures ids == [9, 8, 7]
  {
    var history := new History(100, []);
    for i := 0 to 10
      invariant history.limit == 100
      invariant |history.entries| == i
      invariant forall k :: 0 <= k < i ==> history.entries[k].id == k
    {
      history.Add(TestEntry(i, "app", "summary"));
    }
    ids := Ids(history.Recent(3));
  }

  /** Filtering three entries, one at a time. */
  lemma MatchingThree(a: HistoryEntry, b: HistoryEntry, c: HistoryEntry, query: string)
    ensures MatchingEntries([a, b, c], query)
         == (if EntryMatches(a, query) then [a] else [])
          + (if EntryMatches(b, query) then [b] else [])
          + (if EntryMatches(c, query) then [c] else [])
  {
    assert [a, b, c][1..] == [b, c];
    assert [b, c][1..] == [c];
    var last := MatchingEntries([c], query);
    assert last == (if EntryMatches(c, query) then [c] else []);
    var two := MatchingEntries([b, c], query);
    assert two == (if EntryMatches(b, query) then [b] else []) + last;
  }

  /** A query with a lower-case letter that a field lacks in both cases does
      not occur in the lower-cased field. */
  lemma MissesLetter(s: string, query: string, j: nat)
    requires j < |query| && 'a' <= query[j] <= 'z'
    requires query[j] !in s && (query[j] as int - 'a' as int + 'A' as int) as char !in s
    ensures !Contains(Lower(s), query)
  {
  }

  lemma EntryMissesLetter(e: HistoryEntry, query: string, j: nat, lower: char, upper: char)
    requires Lower(query) == query
    requires j < |query| && query[j] == lower && 'a' <= lower <= 'z'
    requires upper == (lower as int - 'a' as int + 'A' as int) as char
    requires lower !in e.appName && upper !in e.appName
    requires lower !in e.summary && upper !in e.summary
    requires lower !in e.body && upper !in e.body
    ensures !EntryMatches(e, query)
  {
    MissesLetter(e.appName, query, j);
    MissesLetter(e.summary, query, j);
    MissesLetter(e.body, query, j);
  }

  lemma FirefoxIsLower()
    ensures Lower("firefox") == "firefox"
  {
  }

  lemma MessageIsLower()
    ensures Lower("message") == "message"
  {
  }

  lemma FirefoxInFirefox(e: HistoryEntry, query: string)
    requires e.appName == "firefox" && query == "firefox"
    ensures EntryMatches(e, query)
  {
    FirefoxIsLower();
    assert OccursAt(Lower(e.appName), Lower(query), 0);
  }

  lemma MessageInNewMessage(e: HistoryEntry, query: string)
    requires e.summary == "New message" && query == "message"
    ensures EntryMatches(e, query)
  {
    MessageIsLower();
    var head, tail := e.summary[..4], e.summary[4..];
    assert e.summary == head + tail;
    assert tail == query;
    LowerAppend(head, tail);
    assert Lower(e.summary)[4..4 + |query|] == Lower(tail);
    assert OccursAt(Lower(e.summary), Lower(query), 4);
  }

  /** The three entries of the search test, as parameters so that the
      verifier does not evaluate the literals all at once. */
  predicate SearchTestEntries(d: HistoryEntry, n: HistoryEntry, p: HistoryEntry)
  {
    && d.appName == "firefox" && d.summary == "Download complete" && d.body == "body"
    && n.appName == "slack" && n.summary == "New message" && n.body == "body"
    && p.appName == "firefox" && p.summary == "Page loaded" && p.body == "body"
  }

  /** The letter each negative case of the search test turns on. */
  lemma SlackEntryLacksF(n: HistoryEntry)
    requires n.appName == "slack" && n.summary == "New message" && n.body == "body"
    ensures 'f' !in n.appName && 'F' !in n.appName && 'f' !in n.summary && 'F' !in n.summary
    ensures 'f' !in n.body && 'F' !in n.body
  {
  }

  lemma DownloadEntryLacksS(d: HistoryEntry)
    requires d.appName == "firefox" && d.summary == "Download complete" && d.body == "body"
    ensures 's' !in d.appName && 'S' !in d.appName && 's' !in d.summary && 'S' !in d.summary
    ensures 's' !in d.body && 'S' !in d.body
  {
  }

  lemma PageEntryLacksM(p: HistoryEntry)
    requires p.appName == "firefox" && p.summary == "Page loaded" && p.body == "body"
    ensures 'm' !in p.appName && 'M' !in p.appName && 'm' !in p.summary && 'M' !in p.summary
    ensures 'm' !in p.body && 'M' !in p.body
  {
  }

  lemma SearchFirefox(d: HistoryEntry, n: HistoryEntry, p: HistoryEntry, query: string)
    requires SearchTestEntries(d, n, p) && query == "firefox"
    ensures MatchingEntries([d, n, p], query) == [d, p]
  {
    FirefoxIsLower();
    FirefoxInFirefox(d, query);
    FirefoxInFirefox(p, query);
    SlackEntryLacksF(n);
    EntryMissesLetter(n, query, 0, 'f', 'F');
    MatchingThree(d, n, p, query);
  }

  lemma SearchMessage(d: HistoryEntry, n: HistoryEntry, p: HistoryEntry, query: string)
    requires SearchTestEntries(d, n, p) && query == "message"
    ensures MatchingEntries([d, n, p], query) == [n]
  {
    MessageIsLower();
    MessageInNewMessage(n, query);
    DownloadEntryLacksS(d);
    EntryMissesLetter(d, query, 2, 's', 'S');
    PageEntryLacksM(p);
    EntryMissesLetter(p, query, 0, 'm', 'M');
    MatchingThree(d, n, p, query);
  }

  /** The assertions of the search test, over the stored entries. */
  lemma SearchResults(es: seq<HistoryEntry>, d: HistoryEntry, n: HistoryEntry, p: HistoryEntry,
                      firefox: string, message: string)
    requires es == [d, n, p] && SearchTestEntries(d, n, p)
    requires firefox == "firefox" && message == "message"
    ensures |MatchingEntries(es, firefox)| == 2
    ensures MatchingEntries(es, message) == [n]
  {
    SearchFirefox(d, n, p, firefox);
    SearchMessage(d, n, p, message);
  }

  /** A fresh history of limit 100 after adding `a`, `b` and `c`. */
  method StoreThree(a: HistoryEntry, b: HistoryEntry, c: HistoryEntry) returns (history: History)
    ensures fresh(history) && history.limit == 100
    ensures history.entries == [a, b, c]
  {
    history := new History(100, []);
    history.Add(a);
    assert history.entries == [a];
    history.Add(b);
    assert history.entries == [a, b];
    history.Add(c);
  }

  /** Three entries under limit 100: "firefox" finds two, "message" finds only
      the slack entry. */
  method SearchScenario(d: HistoryEntry, n: HistoryEntry, p: HistoryEntry, firefox: string, message: string)
    returns (firefoxHits: nat, messageHits: nat, messageApps: seq<string>)
    requires SearchTestEntries(d, n, p) && firefox == "firefox" && message == "message"
    ensures firefoxHits == 2 && messageHits == 1 && messageApps == [n.appName]
  {
    var history := StoreThree(d, n, p);
    SearchResults(history.entries, d, n, p, firefox, message);
    var byFirefox := history.Search(firefox);
    var byMessage := history.Search(message);
    firefoxHits := |byFirefox|;
    messageHits := |byMessage|;
    messageApps := seq(|byMessage|, i requires 0 <= i < |byMessage| => byMessage[i].appName);
  }
}
