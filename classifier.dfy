/** `createException`: classification of a driver error into a
    DuplicateEntryException or a plain MysqlException.

    `createException` tests the message against the PCRE pattern
      Duplicate entry '(.+)' for key '(.+)'
    (unanchored, no modifiers). This module implements that one pattern with
    PCRE's choice of match: the leftmost starting position, then the longest
    first group, then the longest second group. `.` matches every character
    except a line feed. */
module Classifier {
  import opened Wrappers
  import opened Errors

  const EntryWords: string := "Duplicate entry "
  const KeyWords: string := " for key "
  /** The literal text before the first group ... */
  const EntryOpen: string := EntryWords + "'"
  /** ... and between the two groups. */
  const KeyOpen: string := "'" + KeyWords + "'"

  /** The literal `lit` stands in s at position i, compared one character
      at a time. */
  predicate At(s: string, i: nat, lit: string)
    ensures At(s, i, lit) ==> i + |lit| <= |s|
    decreases |lit|
  {
    i <= |s| && (|lit| == 0 || (i < |s| && s[i] == lit[0] && At(s, i + 1, lit[1..])))
  }

  /** At is the slice comparison. */
  lemma {:induction false} AtIsSlice(s: string, i: nat, lit: string)
    ensures At(s, i, lit) <==> i + |lit| <= |s| && s[i..i + |lit|] == lit
    decreases |lit|
  {
    if |lit| > 0 && i < |s| {
      AtIsSlice(s, i + 1, lit[1..]);
      if i + |lit| <= |s| {
        assert s[i..i + |lit|] == [s[i]] + s[i + 1..i + |lit|];
      }
    }
  }

  /** s[k] is a line feed, which `.` does not match. */
  predicate IsBreak(s: string, k: nat)
    requires k < |s|
  {
    s[k] == '\n'
  }

  /** Index of the first line feed at or after `from`, or |s|. */
  function LineEnd(s: string, from: nat): (e: nat)
    requires from <= |s|
    ensures from <= e <= |s|
    ensures e < |s| ==> IsBreak(s, e)
    decreases |s| - from
  {
    if from == |s| || IsBreak(s, from) then from else LineEnd(s, from + 1)
  }

  /** No line feed in s[lo..hi). */
  ghost predicate NoBreak(s: string, lo: int, hi: int)
    requires 0 <= lo <= hi <= |s|
  {
    forall k: nat :: lo <= k < hi ==> !IsBreak(s, k)
  }

  /** s[from..x) holds no line feed exactly when x does not pass the end of
      the line. */
  lemma {:induction false} WithinLine(s: string, from: nat, x: nat)
    requires from <= x <= |s|
    ensures NoBreak(s, from, x) <==> x <= LineEnd(s, from)
    decreases |s| - from
  {
    if from < x && !IsBreak(s, from) {
      WithinLine(s, from + 1, x);
    }
  }

  /** The pattern matches `msg` starting at `i`, with first group `entry`
      and second group `key`: both groups are non-empty and free of line
      feeds, and the text they make up with the literals stands at i. */
  ghost predicate MatchAt(msg: string, i: nat, entry: string, key: string)
  {
    && |entry| > 0 && |key| > 0
    && '\n' !in entry && '\n' !in key
    && At(msg, i, EntryOpen + entry + KeyOpen + key + "'")
  }

  /** The match PCRE reports: leftmost, then greedy in the first group, then
      greedy in the second. */
  ghost predicate PcreChoice(msg: string, i: nat, entry: string, key: string)
  {
    && MatchAt(msg, i, entry, key)
    && (forall j: nat, en, k :: MatchAt(msg, j, en, k) ==> i <= j)
    && (forall en, k :: MatchAt(msg, i, en, k) ==> |en| <= |entry|)
    && (forall k :: MatchAt(msg, i, entry, k) ==> |k| <= |key|)
  }

  /** Index form of a match: it starts at i, the first group is
      s[i + 17..x], the second s[x + 11..e], and the closing quote is s[e];
      neither group runs past the end of its line. */
  ghost predicate Spans(s: string, i: nat, x: nat, e: nat)
  {
    && i + |EntryOpen| < x && x + |KeyOpen| < e < |s|
    && At(s, i, EntryOpen) && At(s, x, KeyOpen) && s[e] == '\''
    && x <= LineEnd(s, i + |EntryOpen|) && e <= LineEnd(s, x + |KeyOpen|)
  }

  /** The last quote in s[lo..hi). */
  function LastQuote(s: string, lo: nat, hi: nat): (r: Option<nat>)
    requires lo <= hi <= |s|
    ensures r.Some? ==> lo <= r.value < hi && s[r.value] == '\''
    decreases hi - lo
  {
    if hi == lo then None
    else if s[hi - 1] == '\'' then Some(hi - 1)
    else LastQuote(s, lo, hi - 1)
  }

  /** No quote in s[lo..hi) lies after the one LastQuote reports. */
  lemma {:induction false} LastQuoteIsLast(s: string, lo: nat, hi: nat, k: nat)
    requires lo <= k < hi <= |s| && s[k] == '\''
    ensures LastQuote(s, lo, hi).Some? && k <= LastQuote(s, lo, hi).value
    decreases hi - lo
  {
    if s[hi - 1] != '\'' {
      LastQuoteIsLast(s, lo, hi - 1, k);
    }
  }

  /** A second group starting at q can be closed by the quote at e. */
  ghost predicate KeyCloses(s: string, q: nat, e: nat)
  {
    q < e < |s| && s[e] == '\'' && e <= LineEnd(s, q)
  }

  /** `(.+)'` from q, greedy: the end of the longest second group. */
  function KeyEnd(s: string, q: nat): (r: Option<nat>)
    requires q <= |s|
    ensures r.Some? ==> KeyCloses(s, q, r.value)
  {
    var le := LineEnd(s, q);
    if le <= q then None else LastQuote(s, q + 1, le)
  }

  /** Every quote that can close the second group is at or before the one
      KeyEnd reports. */
  lemma KeyEndGreedy(s: string, q: nat, e: nat)
    requires q <= |s| && KeyCloses(s, q, e)
    ensures KeyEnd(s, q).Some? && e <= KeyEnd(s, q).value
  {
    LastQuoteIsLast(s, q + 1, LineEnd(s, q), e);
  }

  /** The first group starting at p can end at x: the literal
      `' for key '` follows and a second group closes after it. */
  ghost predicate EntryCloses(s: string, p: nat, x: nat)
  {
    && p < x <= |s| && x <= LineEnd(s, p)
    && At(s, x, KeyOpen) && KeyEnd(s, x + |KeyOpen|).Some?
  }

  /** `(.+)` from p, greedy: try the ends hi, hi - 1, ..., p + 1 in turn. */
  function EntryEnd(s: string, p: nat, hi: nat): (r: Option<nat>)
    requires p <= hi <= |s| && hi <= LineEnd(s, p)
    ensures r.Some? ==> EntryCloses(s, p, r.value) && r.value <= hi
    decreases hi - p
  {
    if hi == p then None
    else if At(s, hi, KeyOpen) && KeyEnd(s, hi + |KeyOpen|).Some? then Some(hi)
    else EntryEnd(s, p, hi - 1)
  }

  /** Every end the first group can take up to hi is at or before the one
      EntryEnd reports. */
  lemma {:induction false} EntryEndGreedy(s: string, p: nat, hi: nat, x: nat)
    requires p <= hi <= |s| && hi <= LineEnd(s, p)
    requires x <= hi && EntryCloses(s, p, x)
    ensures EntryEnd(s, p, hi).Some? && x <= EntryEnd(s, p, hi).value
    decreases hi - p
  {
    if x < hi && !(At(s, hi, KeyOpen) && KeyEnd(s, hi + |KeyOpen|).Some?) {
      EntryEndGreedy(s, p, hi - 1, x);
    }
  }

  /** Where a match was found: its start, the end of the first group and
      the position of the closing quote. */
  datatype Found = Found(start: nat, entryEnd: nat, keyEnd: nat)

  /** The end of the greedy first group when the pattern matches at i. */
  function GroupAt(s: string, i: nat): (r: Option<nat>)
    requires i <= |s|
    ensures r.Some? ==> At(s, i, EntryOpen) && EntryCloses(s, i + |EntryOpen|, r.value)
  {
    if At(s, i, EntryOpen) then EntryEnd(s, i + |EntryOpen|, LineEnd(s, i + |EntryOpen|)) else None
  }

  /** The whole pattern at the leftmost position at or after i. */
  function MatchFrom(s: string, i: nat): (r: Option<Found>)
    requires i <= |s|
    ensures r.Some? ==> && i <= r.value.start
                        && r.value.start + |EntryOpen| < r.value.entryEnd < r.value.keyEnd < |s|
                        && GroupAt(s, r.value.start) == Some(r.value.entryEnd)
                        && KeyEnd(s, r.value.entryEnd + |KeyOpen|) == Some(r.value.keyEnd)
    decreases |s| - i
  {
    var g := GroupAt(s, i);
    if g.Some? then Some(Found(i, g.value, KeyEnd(s, g.value + |KeyOpen|).value))
    else if i < |s| then MatchFrom(s, i + 1)
    else None
  }

  /** What MatchFrom reports is a match in index form. */
  lemma FoundSpans(s: string, i: nat)
    requires i <= |s| && MatchFrom(s, i).Some?
    ensures var f := MatchFrom(s, i).value;
      Spans(s, f.start, f.entryEnd, f.keyEnd)
  {
    var f := MatchFrom(s, i).value;
    assert GroupAt(s, f.start) == Some(f.entryEnd);
    assert EntryCloses(s, f.start + |EntryOpen|, f.entryEnd);
  }

  /** A match in index form at j has a first group no longer than the
      one GroupAt reports for j. */
  lemma GroupAtGreedy(s: string, j: nat, x: nat, e: nat)
    requires j <= |s| && Spans(s, j, x, e)
    ensures GroupAt(s, j).Some? && x <= GroupAt(s, j).value
  {
    KeyEndGreedy(s, x + |KeyOpen|, e);
    EntryEndGreedy(s, j + |EntryOpen|, LineEnd(s, j + |EntryOpen|), x);
  }

  /** No match starts before the one MatchFrom reports. */
  lemma {:induction false} MatchFromLeftmost(s: string, i: nat, j: nat)
    requires i <= j <= |s| && GroupAt(s, j).Some?
    ensures MatchFrom(s, i).Some? && MatchFrom(s, i).value.start <= j
    decreases j - i
  {
    if i < j && GroupAt(s, i).None? {
      MatchFromLeftmost(s, i + 1, j);
    }
  }

  /** A slice of a text standing at i is the same slice of s, shifted by i. */
  lemma AtSlice(w: string, s: string, i: nat, lo: nat, hi: nat)
    requires i + |w| <= |s| && s[i..i + |w|] == w && lo <= hi <= |w|
    ensures s[i + lo..i + hi] == w[lo..hi]
  {
    forall k | 0 <= k < hi - lo ensures s[i + lo..i + hi][k] == w[lo..hi][k] {
      assert w[lo + k] == s[i..i + |w|][lo + k];
    }
  }

  /** The five pieces of a concatenation. */
  lemma Pieces(a: string, b: string, c: string, d: string, z: string)
    ensures var w := a + b + c + d + z;
      var ab, abc := |a| + |b|, |a| + |b| + |c|;
      && |w| == abc + |d| + |z|
      && w[..|a|] == a && w[|a|..ab] == b && w[ab..abc] == c
      && w[abc..abc + |d|] == d && w[abc + |d|..] == z
  {
  }

  /** Five adjacent slices of s make up the slice they span. */
  lemma Adjacent(s: string, p0: nat, p1: nat, p2: nat, p3: nat, p4: nat, p5: nat)
    requires p0 <= p1 <= p2 <= p3 <= p4 <= p5 <= |s|
    ensures s[p0..p5] == s[p0..p1] + s[p1..p2] + s[p2..p3] + s[p3..p4] + s[p4..p5]
  {
    assert s[p0..p2] == s[p0..p1] + s[p1..p2];
    assert s[p0..p3] == s[p0..p2] + s[p2..p3];
    assert s[p0..p4] == s[p0..p3] + s[p3..p4];
    assert s[p0..p5] == s[p0..p4] + s[p4..p5];
  }

  /** A group held in s[lo..hi) is free of line feeds exactly when that part
      of s is. */
  lemma SliceNoBreak(s: string, lo: nat, hi: nat, g: string)
    requires lo <= hi <= |s| && g == s[lo..hi]
    ensures NoBreak(s, lo, hi) <==> '\n' !in g
  {
    if NoBreak(s, lo, hi) {
      forall k | 0 <= k < |g| ensures g[k] != '\n' {
        assert g[k] == s[lo + k];
        assert !IsBreak(s, lo + k);
      }
    }
    if '\n' !in g {
      forall k: nat | lo <= k < hi ensures !IsBreak(s, k) {
        assert s[k] == g[k - lo];
      }
    }
  }

  /** The pieces of a match in string form, as slices of s. */
  lemma MatchAtPieces(s: string, i: nat, entry: string, key: string)
    requires MatchAt(s, i, entry, key)
    ensures var x := i + |EntryOpen| + |entry|;
      var e := x + |KeyOpen| + |key|;
      && e < |s| && s[e] == '\''
      && s[i..i + |EntryOpen|] == EntryOpen && s[i + |EntryOpen|..x] == entry
      && s[x..x + |KeyOpen|] == KeyOpen && s[x + |KeyOpen|..e] == key
  {
    var w := EntryOpen + entry + KeyOpen + key + "'";
    var x, e := |EntryOpen| + |entry|, |EntryOpen| + |entry| + |KeyOpen| + |key|;
    Pieces(EntryOpen, entry, KeyOpen, key, "'");
    AtIsSlice(s, i, w);
    AtSlice(w, s, i, 0, |EntryOpen|);
    AtSlice(w, s, i, |EntryOpen|, x);
    AtSlice(w, s, i, x, x + |KeyOpen|);
    AtSlice(w, s, i, x + |KeyOpen|, e);
    AtSlice(w, s, i, e, |w|);
    assert s[i + e] == s[i + e..i + |w|][0];
  }

  /** A match in string form is a match in index form whose groups are the
      slices between the literals ... */
  lemma MatchAtSpans(s: string, i: nat, entry: string, key: string)
    requires MatchAt(s, i, entry, key)
    ensures var x := i + |EntryOpen| + |entry|;
      var e := x + |KeyOpen| + |key|;
      && Spans(s, i, x, e)
      && entry == s[i + |EntryOpen|..x]
      && key == s[x + |KeyOpen|..e]
  {
    var x := i + |EntryOpen| + |entry|;
    var e := x + |KeyOpen| + |key|;
    MatchAtPieces(s, i, entry, key);
    AtIsSlice(s, i, EntryOpen);
    AtIsSlice(s, x, KeyOpen);
    SliceNoBreak(s, i + |EntryOpen|, x, entry);
    WithinLine(s, i + |EntryOpen|, x);
    SliceNoBreak(s, x + |KeyOpen|, e, key);
    WithinLine(s, x + |KeyOpen|, e);
  }

  /** ... and every match in index form is one in string form. */
  lemma SpansMatchAt(s: string, i: nat, x: nat, e: nat)
    requires Spans(s, i, x, e)
    ensures MatchAt(s, i, s[i + |EntryOpen|..x], s[x + |KeyOpen|..e])
  {
    var entry := s[i + |EntryOpen|..x];
    var key := s[x + |KeyOpen|..e];
    SpansPieces(s, i, x, e);
    AtIsSlice(s, i, EntryOpen + entry + KeyOpen + key + "'");
    WithinLine(s, i + |EntryOpen|, x);
    WithinLine(s, x + |KeyOpen|, e);
    SliceNoBreak(s, i + |EntryOpen|, x, entry);
    SliceNoBreak(s, x + |KeyOpen|, e, key);
  }

  /** The text a match in index form spans, as the literals and groups. */
  lemma SpansPieces(s: string, i: nat, x: nat, e: nat)
    requires Spans(s, i, x, e)
    ensures s[i..e + 1] == EntryOpen + s[i + |EntryOpen|..x] + KeyOpen + s[x + |KeyOpen|..e] + "'"
  {
    AtIsSlice(s, i, EntryOpen);
    AtIsSlice(s, x, KeyOpen);
    Adjacent(s, i, i + |EntryOpen|, x, x + |KeyOpen|, e, e + 1);
    assert s[e..e + 1] == "'";
  }

  /** `createException($message, $code)`: a DuplicateEntryException whose key
      is the second group and whose entry is the first, or a plain
      MysqlException; both keep the message and code. */
  function CreateException(message: string, code: int): (e: MysqlException)
    ensures e.GetMessage() == message && e.GetCode() == code
  {
    var m := MatchFrom(message, 0);
    if m.Some? then
      var f := m.value;
      NewDuplicateEntryException(message[f.entryEnd + |KeyOpen|..f.keyEnd],
                                 message[f.start + |EntryOpen|..f.entryEnd], message, code)
    else
      NewMysqlException(message, code)
  }

  /** The driver error is classified as a duplicate entry exactly when the
      pattern matches somewhere in its message. */
  lemma CreateExceptionDetects(message: string, code: int)
    ensures CreateException(message, code).DuplicateEntry? <==>
            exists i: nat, entry, key :: MatchAt(message, i, entry, key)
  {
    ClassifiedByMatch(message, code);
    if MatchFrom(message, 0).Some? {
      FoundMatches(message);
    }
    forall i: nat, entry, key | MatchAt(message, i, entry, key)
      ensures MatchFrom(message, 0).Some?
    {
      FoundIsLeftmost(message, i, entry, key);
    }
  }

  /** The classification follows MatchFrom. */
  lemma ClassifiedByMatch(message: string, code: int)
    ensures CreateException(message, code).DuplicateEntry? <==> MatchFrom(message, 0).Some?
  {
  }

  /** What MatchFrom reports is a match in string form. */
  lemma FoundMatches(message: string)
    requires MatchFrom(message, 0).Some?
    ensures var f := MatchFrom(message, 0).value;
            MatchAt(message, f.start, message[f.start + |EntryOpen|..f.entryEnd],
                    message[f.entryEnd + |KeyOpen|..f.keyEnd])
  {
    var f := MatchFrom(message, 0).value;
    FoundSpans(message, 0);
    SpansMatchAt(message, f.start, f.entryEnd, f.keyEnd);
  }

  lemma FoundIsLeftmost(s: string, j: nat, en: string, k: string)
    requires MatchAt(s, j, en, k)
    ensures MatchFrom(s, 0).Some? && MatchFrom(s, 0).value.start <= j
  {
    GroupAtLongest(s, j, en, k);
    MatchFromLeftmost(s, 0, j);
  }

  /** A match in string form at j has a first group no longer than the one
      GroupAt reports for j. */
  lemma GroupAtLongest(s: string, j: nat, en: string, k: string)
    requires MatchAt(s, j, en, k)
    ensures GroupAt(s, j).Some? && j + |EntryOpen| + |en| <= GroupAt(s, j).value
  {
    MatchAtSpans(s, j, en, k);
    GroupAtGreedy(s, j, j + |EntryOpen| + |en|, j + |EntryOpen| + |en| + |KeyOpen| + |k|);
  }

  /** A match in string form at j whose first group ends at x has a second
      group no longer than the one KeyEnd reports after x. */
  lemma KeyEndLongest(s: string, j: nat, x: nat, k: string)
    requires j + |EntryOpen| <= x <= |s| && MatchAt(s, j, s[j + |EntryOpen|..x], k)
    ensures x + |KeyOpen| <= |s| && KeyEnd(s, x + |KeyOpen|).Some?
    ensures x + |KeyOpen| + |k| <= KeyEnd(s, x + |KeyOpen|).value
  {
    MatchAtSpans(s, j, s[j + |EntryOpen|..x], k);
    KeyEndGreedy(s, x + |KeyOpen|, x + |KeyOpen| + |k|);
  }

  lemma FoundGreedyEntry(s: string, en: string, k: string)
    requires MatchFrom(s, 0).Some? && MatchAt(s, MatchFrom(s, 0).value.start, en, k)
    ensures MatchFrom(s, 0).value.start + |EntryOpen| + |en| <= MatchFrom(s, 0).value.entryEnd
  {
    GroupAtLongest(s, MatchFrom(s, 0).value.start, en, k);
  }

  lemma FoundGreedyKey(s: string, k: string)
    requires MatchFrom(s, 0).Some?
    requires var f := MatchFrom(s, 0).value;
      MatchAt(s, f.start, s[f.start + |EntryOpen|..f.entryEnd], k)
    ensures var f := MatchFrom(s, 0).value;
      f.entryEnd + |KeyOpen| + |k| <= f.keyEnd
  {
    var f := MatchFrom(s, 0).value;
    KeyEndLongest(s, f.start, f.entryEnd, k);
  }

  /** A duplicate entry carries the groups of the match PCRE reports: the
      leftmost match, with the longest first group and then the longest
      second group. */
  lemma CreateExceptionGroups(message: string, code: int)
    requires CreateException(message, code).DuplicateEntry?
    ensures exists i: nat :: PcreChoice(message, i, CreateException(message, code).GetEntry(),
                                         CreateException(message, code).GetKey())
  {
    assert MatchFrom(message, 0).Some?;
    DuplicateFromFound(message, code);
    FoundIsPcreChoice(message);
  }

  /** The exception built from the match found. */
  lemma DuplicateFromFound(message: string, code: int)
    requires MatchFrom(message, 0).Some?
    ensures var f := MatchFrom(message, 0).value;
            CreateException(message, code) ==
            DuplicateEntry(message[f.entryEnd + |KeyOpen|..f.keyEnd], message[f.start + |EntryOpen|..f.entryEnd], message, code)
  {
  }

  /** The match found is the one PCRE reports. */
  lemma FoundIsPcreChoice(message: string)
    requires MatchFrom(message, 0).Some?
    ensures var f := MatchFrom(message, 0).value;
            PcreChoice(message, f.start, message[f.start + |EntryOpen|..f.entryEnd],
                       message[f.entryEnd + |KeyOpen|..f.keyEnd])
  {
    FoundMatches(message);
    FoundLeftmostOfAll(message);
    FoundLongestEntry(message);
    FoundLongestKey(message);
  }

  lemma FoundLeftmostOfAll(message: string)
    requires MatchFrom(message, 0).Some?
    ensures forall j: nat, en, k :: MatchAt(message, j, en, k) ==> MatchFrom(message, 0).value.start <= j
  {
    forall j: nat, en, k | MatchAt(message, j, en, k)
      ensures MatchFrom(message, 0).value.start <= j
    {
      FoundIsLeftmost(message, j, en, k);
    }
  }

  lemma FoundLongestEntry(message: string)
    requires MatchFrom(message, 0).Some?
    ensures var f := MatchFrom(message, 0).value;
            forall en, k :: MatchAt(message, f.start, en, k) ==> |en| <= |message[f.start + |EntryOpen|..f.entryEnd]|
  {
    var f := MatchFrom(message, 0).value;
    forall en, k | MatchAt(message, f.start, en, k)
      ensures |en| <= f.entryEnd - f.start - |EntryOpen|
    {
      FoundGreedyEntry(message, en, k);
    }
  }

  lemma FoundLongestKey(message: string)
    requires MatchFrom(message, 0).Some?
    ensures var f := MatchFrom(message, 0).value;
            forall k :: MatchAt(message, f.start, message[f.start + |EntryOpen|..f.entryEnd], k) ==>
                          |k| <= |message[f.entryEnd + |KeyOpen|..f.keyEnd]|
  {
    var f := MatchFrom(message, 0).value;
    forall k | MatchAt(message, f.start, message[f.start + |EntryOpen|..f.entryEnd], k)
      ensures |k| <= |message[f.entryEnd + |KeyOpen|..f.keyEnd]|
    {
      FoundGreedyKey(message, k);
    }
  }

  /** The message MySQL writes for a unique-key violation. */
  function DuplicateMessage(entry: string, key: string): string
  {
    EntryOpen + entry + KeyOpen + key + "'"
  }

  /** In such a message built from quote-free groups, quotes stand only
      around the two groups. */
  lemma QuotesOfDuplicateMessage(entry: string, key: string, p: nat)
    requires '\'' !in entry && '\'' !in key
    requires p < |DuplicateMessage(entry, key)| && DuplicateMessage(entry, key)[p] == '\''
    ensures var x := |EntryOpen| + |entry|;
      p == |EntryWords| || p == x || p == x + |KeyOpen| - 1 || p == x + |KeyOpen| + |key|
  {
  }

  /** Hence the groups themselves are the only match at the start. */
  lemma OnlyMatchOfDuplicateMessage(entry: string, key: string, x: nat, e: nat)
    requires '\'' !in entry && '\'' !in key
    requires Spans(DuplicateMessage(entry, key), 0, x, e)
    ensures x == |EntryOpen| + |entry| && e == x + |KeyOpen| + |key|
  {
    var m := DuplicateMessage(entry, key);
    AtIsSlice(m, x, KeyOpen);
    assert m[x] == '\'' by {
      assert m[x..x + |KeyOpen|][0] == KeyOpen[0];
    }
    assert m[x + |KeyOpen| - 1] == '\'' by {
      assert m[x..x + |KeyOpen|][|KeyOpen| - 1] == KeyOpen[|KeyOpen| - 1];
    }
    QuotesOfDuplicateMessage(entry, key, x);
    QuotesOfDuplicateMessage(entry, key, x + |KeyOpen| - 1);
    QuotesOfDuplicateMessage(entry, key, e);
  }

  /** The canonical MySQL message with groups free of quotes and line feeds
      classifies to a DuplicateEntryException with exactly that key and
      entry. */
  lemma CanonicalDuplicateEntry(entry: string, key: string, code: int)
    requires |entry| > 0 && |key| > 0
    requires '\'' !in entry && '\n' !in entry && '\'' !in key && '\n' !in key
    ensures CreateException(DuplicateMessage(entry, key), code)
         == NewDuplicateEntryException(key, entry, DuplicateMessage(entry, key), code)
  {
    var m := DuplicateMessage(entry, key);
    assert m[0..|m|] == m;
    AtIsSlice(m, 0, m);
    FoundIsLeftmost(m, 0, entry, key);
    MatchAtSpans(m, 0, entry, key);
    var f := MatchFrom(m, 0).value;
    FoundSpans(m, 0);
    OnlyMatchOfDuplicateMessage(entry, key, f.entryEnd, f.keyEnd);
  }

  /** The unique-key violation on an e-mail column, as MySQL reports it. */
  lemma EmailDuplicate()
    ensures var m := "Duplicate entry '" + "bob@example.com" + "' for key '" + "users.email_unique" + "'";
      CreateException(m, 1062) == DuplicateEntry("users.email_unique", "bob@example.com", m, 1062)
  {
    var entry, key := "bob@example.com", "users.email_unique";
    assert EntryOpen == "Duplicate entry '" && KeyOpen == "' for key '";
    CanonicalDuplicateEntry(entry, key, 1062);
  }
}
