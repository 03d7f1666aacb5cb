/** Session word metrics, the per-file history of writing days, the streak
    and the achievement notices raised by `updateMetricsForFile`. Dates are
    day numbers: `today - 1` is yesterday. */
module Metrics {
  import opened Text

  // ----- Word count -----

  /** Runs of word characters in `s`; `inWord` says whether the character
      before `s` was a word character (so a run continuing it is not new). */
  function CountRuns(s: string, inWord: bool): (n: nat)
    ensures n <= (|s| + (if inWord then 0 else 1)) / 2
  {
    if s == [] then 0
    else if IsWordChar(s[0]) then (if inWord then 0 else 1) + CountRuns(s[1..], true)
    else CountRuns(s[1..], false)
  }

  /** The number of matches of `/\b\w+\b/g`, that is, of maximal runs of ASCII
      word characters. */
  function WordCount(s: string): (r: nat)
    ensures r <= (|s| + 1) / 2
  {
    CountRuns(s, false)
  }

  lemma {:induction false} CountRunsNoWords(s: string, inWord: bool)
    requires forall k :: 0 <= k < |s| ==> !IsWordChar(s[k])
    ensures CountRuns(s, inWord) == 0
  {
    if s != [] {
      CountRunsNoWords(s[1..], false);
    }
  }

  lemma {:induction false} CountRunsFindsWord(s: string, k: nat)
    requires k < |s| && IsWordChar(s[k])
    ensures CountRuns(s, false) >= 1
  {
    if !IsWordChar(s[0]) {
      CountRunsFindsWord(s[1..], k - 1);
    }
  }

  /** The count is zero exactly when the text holds no word character; in
      particular the empty text has no words. */
  lemma WordCountZero(s: string)
    ensures WordCount(s) == 0 <==> forall k :: 0 <= k < |s| ==> !IsWordChar(s[k])
  {
    if forall k :: 0 <= k < |s| ==> !IsWordChar(s[k]) {
      CountRunsNoWords(s, false);
    } else {
      var k :| 0 <= k < |s| && IsWordChar(s[k]);
      CountRunsFindsWord(s, k);
    }
  }

  lemma {:induction false} CountRunsSplit(a: string, c: char, b: string, inWord: bool)
    requires !IsWordChar(c)
    ensures CountRuns(a + [c] + b, inWord) == CountRuns(a, inWord) + CountRuns(b, false)
  {
    if a == [] {
      assert a + [c] + b == [c] + b;
      assert ([c] + b)[1..] == b;
    } else {
      assert (a + [c] + b)[0] == a[0];
      assert (a + [c] + b)[1..] == a[1..] + [c] + b;
      CountRunsSplit(a[1..], c, b, IsWordChar(a[0]));
    }
  }

  /** A non-word character separates: the words on both sides add up. */
  lemma WordCountSeparated(a: string, c: char, b: string)
    requires !IsWordChar(c)
    ensures WordCount(a + [c] + b) == WordCount(a) + WordCount(b)
  {
    CountRunsSplit(a, c, b, false);
  }

  lemma {:induction false} CountRunsContinues(s: string)
    requires forall k :: 0 <= k < |s| ==> IsWordChar(s[k])
    ensures CountRuns(s, true) == 0
  {
    if s != [] {
      CountRunsContinues(s[1..]);
    }
  }

  /** A non-empty run of word characters is one word. */
  lemma WordCountOfRun(s: string)
    requires s != [] && forall k :: 0 <= k < |s| ==> IsWordChar(s[k])
    ensures WordCount(s) == 1
  {
    CountRunsContinues(s[1..]);
  }

  /** `-` separates words, and digits belong to words. */
  lemma WordCountExample()
    ensures WordCount("two-three") == 2
    ensures WordCount("4four 5") == 2
  {
  }

  /** `\w` is ASCII-only, so an accented letter splits a word in two. */
  lemma AccentSplitsWord()
    ensures WordCount("Diálogo") == 2
  {
  }

  // ----- Writing history and streak -----

  /** What is kept per file: the days it was touched and the last one. */
  datatype History = History(dates: set<int>, lastOpened: Option<int>)

  /** The days recorded for `path`, none when it has no entry. */
  function DatesOf(byFile: map<string, History>, path: string): set<int> {
    if path in byFile then byFile[path].dates else {}
  }

  /** The history update of `updateMetricsForFile`: today joins the file's
      days and becomes its last-opened day; the entry is created when missing
      and no other file's entry changes. */
  function Touch(byFile: map<string, History>, path: string, today: int): (r: map<string, History>)
    ensures r.Keys == byFile.Keys + {path}
    ensures r[path].dates == DatesOf(byFile, path) + {today}
    ensures r[path].lastOpened == Some(today)
    ensures forall q :: q in byFile && q != path ==> r[q] == byFile[q]
  {
    var st := if path in byFile then byFile[path] else History({}, None);
    byFile[path := History(st.dates + {today}, Some(today))]
  }

  /** Touching never forgets a day, for any file. */
  lemma TouchKeepsDates(byFile: map<string, History>, path: string, today: int, q: string)
    ensures DatesOf(byFile, q) <= DatesOf(Touch(byFile, path, today), q)
    ensures today in DatesOf(Touch(byFile, path, today), path)
  {
  }

  /** Touching the same file twice on the same day is the same as once. */
  lemma TouchIdempotent(byFile: map<string, History>, path: string, today: int)
    ensures Touch(Touch(byFile, path, today), path, today) == Touch(byFile, path, today)
  {
    var once := Touch(byFile, path, today);
    assert DatesOf(once, path) + {today} == DatesOf(once, path);
  }

  /** The recorded days up to and including `day`: a finite set that shrinks
      at every step of the backward walk. */
  function DaysUpTo(dates: set<int>, day: int): set<int> {
    set d | d in dates && d <= day
  }

  lemma DaysUpToStep(dates: set<int>, day: int)
    requires day in dates
    ensures DaysUpTo(dates, day) == DaysUpTo(dates, day - 1) + {day}
    ensures |DaysUpTo(dates, day - 1)| + 1 == |DaysUpTo(dates, day)|
  {
    assert DaysUpTo(dates, day) == DaysUpTo(dates, day - 1) + {day};
    assert day !in DaysUpTo(dates, day - 1);
  }

  /** The number of consecutive recorded days ending at `day`. */
  function Streak(dates: set<int>, day: int): (n: nat)
    ensures n <= |DaysUpTo(dates, day)|
    decreases |DaysUpTo(dates, day)|
  {
    if day in dates then
      DaysUpToStep(dates, day);
      1 + Streak(dates, day - 1)
    else 0
  }

  /** Every day after `day - n`, up to and including `day`, is recorded. */
  ghost predicate RunOf(dates: set<int>, day: int, n: nat) {
    forall d :: day - n < d <= day ==> d in dates
  }

  /** The streak is a run: every day of it is recorded, and the day before it
      is not. So it is the longest such run, and 0 when `day` is missing. */
  lemma {:induction false} StreakIsRun(dates: set<int>, day: int)
    ensures RunOf(dates, day, Streak(dates, day))
    ensures day - Streak(dates, day) !in dates
    decreases |DaysUpTo(dates, day)|
  {
    if day in dates {
      DaysUpToStep(dates, day);
      StreakIsRun(dates, day - 1);
    }
  }

  /** A run of `n` recorded days ending at `day`, preceded by a missing day,
      is the streak: the streak is determined by the recorded days alone. */
  lemma {:induction false} StreakOfRun(dates: set<int>, day: int, n: nat)
    requires RunOf(dates, day, n)
    requires day - n !in dates
    ensures Streak(dates, day) == n
    decreases n
  {
    if n > 0 {
      assert day - n < day;
      assert day in dates;
      assert RunOf(dates, day - 1, n - 1) by {
        forall d | day - 1 - (n - 1) < d <= day - 1 ensures d in dates {
          assert day - n < d <= day;
        }
      }
      StreakOfRun(dates, day - 1, n - 1);
    }
  }

  /** Seven recorded days ending today make a streak of seven; with yesterday
      missing, the streak is today alone, whatever older days exist. */
  lemma StreakExamples(today: int, older: set<int>)
    requires forall d :: d in older ==> d < today - 1
    ensures Streak({today, today - 1, today - 2, today - 3, today - 4, today - 5, today - 6}, today) == 7
    ensures Streak(older + {today}, today) == 1
  {
    var week := {today, today - 1, today - 2, today - 3, today - 4, today - 5, today - 6};
    assert RunOf(week, today, 7) by {
      forall d | today - 7 < d <= today ensures d in week {
        assert d == today || d == today - 1 || d == today - 2 || d == today - 3
          || d == today - 4 || d == today - 5 || d == today - 6;
      }
    }
    StreakOfRun(week, today, 7);
    StreakOfRun(older + {today}, today, 1);
  }

  /** `_streakLength`: walks back one day at a time while the day is recorded. */
  method StreakLength(dates: set<int>, today: int) returns (len: nat)
    ensures len == Streak(dates, today)
    ensures RunOf(dates, today, len) && today - len !in dates
  {
    len := 0;
    var cur := today;
    while cur in dates
      invariant cur == today - len
      invariant RunOf(dates, today, len)
      invariant Streak(dates, today) == len + Streak(dates, cur)
      decreases |DaysUpTo(dates, cur)|
    {
      DaysUpToStep(dates, cur);
      len := len + 1;
      cur := cur - 1;
    }
  }

  // ----- Achievements -----

  datatype Achievement = Words500 | Words1000 | Streak7

  /** The notices one metrics update raises, in the order they are shown.
      They depend only on the current counts, so they fire again on every
      update that still meets a threshold. */
  function Achievements(words: nat, streak: nat): (r: seq<Achievement>)
    ensures Words500 in r <==> words >= 500
    ensures Words1000 in r <==> words >= 1000
    ensures Streak7 in r <==> streak >= 7
    ensures forall i, j :: 0 <= i < j < |r| ==> r[i] != r[j]
  {
    (if words >= 500 then [Words500] else [])
    + (if words >= 1000 then [Words1000] else [])
    + (if streak >= 7 then [Streak7] else [])
  }

  /** At a thousand words both word notices fire, the 500 one first. */
  lemma ThousandFiresBoth(words: nat, streak: nat)
    requires words >= 1000
    ensures Achievements(words, streak)[..2] == [Words500, Words1000]
  {
  }

  /** The words a metrics update adds to the session: the growth since the
      last count, never negative. */
  function SessionDelta(lastCount: nat, words: nat): (d: nat)
    ensures d <= words && words <= lastCount + d
    ensures d == 0 <==> words <= lastCount
    ensures d > 0 ==> lastCount + d == words
  {
    if words > lastCount then words - lastCount else 0
  }

  /** The last count of a session, 0 before the first update. */
  function LastOf(counts: seq<nat>): nat {
    if counts == [] then 0 else counts[|counts| - 1]
  }

  /** The session total after the updates of one session counted `counts`,
      in order, starting from the reset of `startSession`. */
  function SessionTotal(counts: seq<nat>): nat {
    if counts == [] then 0
    else
      var prev := counts[..|counts| - 1];
      SessionTotal(prev) + SessionDelta(LastOf(prev), counts[|counts| - 1])
  }

  /** What `WriterState.Valid` records: a session total is never below the
      latest count, and it never shrinks from one update to the next. */
  lemma {:induction false} SessionTotalCoversLast(counts: seq<nat>)
    ensures LastOf(counts) <= SessionTotal(counts)
    ensures counts != [] ==> SessionTotal(counts[..|counts| - 1]) <= SessionTotal(counts)
  {
    if counts != [] {
      SessionTotalCoversLast(counts[..|counts| - 1]);
    }
  }

  /** One more update extends the total by its clamped delta. */
  lemma SessionTotalStep(counts: seq<nat>, words: nat)
    ensures SessionTotal(counts + [words]) == SessionTotal(counts) + SessionDelta(LastOf(counts), words)
    ensures LastOf(counts + [words]) == words <= SessionTotal(counts + [words])
  {
    assert (counts + [words])[..|counts|] == counts;
    SessionTotalCoversLast(counts + [words]);
  }

  // ----- The plugin's session state -----

  /** The plugin's `state` object. */
  class WriterState {
    var sessionStart: Option<int>
    var sessionWords: nat
    var lastCount: nat
    var streakByFile: map<string, History>
    /** The word counts of the updates since the last reset, in order. */
    ghost var counts: seq<nat>

    /** The session total is the sum of the clamped deltas of the session's
        counts, `lastCount` is the latest of them, and so the total is never
        below the count it was last compared with. */
    ghost predicate Valid()
      reads this
    {
      sessionWords == SessionTotal(counts) && lastCount == LastOf(counts)
      && lastCount <= sessionWords
    }

    /** The state created in `onload`. */
    constructor ()
      ensures Valid()
      ensures sessionStart == None && sessionWords == 0 && lastCount == 0 && streakByFile == map[]
      ensures counts == []
    {
      sessionStart := None;
      sessionWords := 0;
      lastCount := 0;
      streakByFile := map[];
      counts := [];
    }

    /** `startSession`: records the start time and resets both counters. */
    method StartSession(now: int)
      modifies this
      ensures Valid()
      ensures sessionStart == Some(now) && sessionWords == 0 && lastCount == 0
      ensures streakByFile == old(streakByFile) && counts == []
    {
      sessionStart := Some(now);
      sessionWords := 0;
      lastCount := 0;
      counts := [];
    }

    /** The counter step of `updateMetricsForFile`: the clamped growth is
        added to the session and the new count becomes the last one. */
    method RecordCount(words: nat)
      requires Valid()
      modifies this
      ensures Valid()
      ensures lastCount == words && counts == old(counts) + [words]
      ensures sessionWords == old(sessionWords) + SessionDelta(old(lastCount), words)
      ensures sessionStart == old(sessionStart) && streakByFile == old(streakByFile)
    {
      var delta := if words > lastCount then words - lastCount else 0;
      SessionTotalStep(counts, words);
      lastCount := words;
      sessionWords := sessionWords + delta;
      counts := counts + [words];
    }

    /** `updateMetricsForFile`: `read` is the text read from the vault (None
        when the read fails, which leaves everything as it was). */
    method UpdateMetricsForFile(path: string, read: Option<string>, today: int)
      returns (notices: seq<Achievement>)
      requires Valid()
      modifies this
      ensures Valid()
      ensures sessionWords >= old(sessionWords)
      ensures sessionStart == old(sessionStart)
      ensures read.None? ==>
        notices == [] && sessionWords == old(sessionWords) && lastCount == old(lastCount)
        && streakByFile == old(streakByFile) && counts == old(counts)
      ensures read.Some? ==>
        lastCount == WordCount(read.value) && counts == old(counts) + [lastCount]
        && sessionWords == old(sessionWords) + SessionDelta(old(lastCount), lastCount)
        && streakByFile == Touch(old(streakByFile), path, today)
        && notices == Achievements(lastCount, Streak(streakByFile[path].dates, today))
    {
      if read.None? {
        return [];
      }
      var words := WordCount(read.value);
      RecordCount(words);

      var st := if path in streakByFile then streakByFile[path] else History({}, None);
      st := History(st.dates + {today}, Some(today));
      streakByFile := streakByFile[path := st];
      assert streakByFile == Touch(old(streakByFile), path, today);

      notices := [];
      if words >= 500 { notices := notices + [Words500]; }
      if words >= 1000 { notices := notices + [Words1000]; }
      var streakLen := StreakLength(st.dates, today);
      if streakLen >= 7 { notices := notices + [Streak7]; }
      assert notices == Achievements(words, streakLen);
    }

    /** The counts `updateStatusBar` shows: the last word count and the streak
        of the active file (0 without one). */
    method StatusCounts(active: Option<string>, today: int) returns (words: nat, streak: nat)
      ensures words == lastCount
      ensures active.None? ==> streak == 0
      ensures active.Some? ==> streak == Streak(DatesOf(streakByFile, active.value), today)
    {
      words := lastCount;
      streak := 0;
      if active.Some? {
        streak := StreakLength(DatesOf(streakByFile, active.value), today);
      }
    }
  }

  /** Updating twice with the same text on the same day adds no session words
      the second time but raises the same notices again. */
  lemma RepeatedUpdateRefires(byFile: map<string, History>, path: string, today: int, words: nat)
    ensures var once := Touch(byFile, path, today);
            var twice := Touch(once, path, today);
            SessionDelta(words, words) == 0
            && Achievements(words, Streak(twice[path].dates, today))
               == Achievements(words, Streak(once[path].dates, today))
  {
    TouchIdempotent(byFile, path, today);
  }

  /** On an empty note opened for the first time: no words, no session words,
      and a streak of one (today). */
  lemma EmptyNoteFirstUpdate(path: string, today: int)
    ensures WordCount("") == 0 && SessionDelta(0, 0) == 0
    ensures Streak(Touch(map[], path, today)[path].dates, today) == 1
  {
    StreakOfRun({today}, today, 1);
  }
}
