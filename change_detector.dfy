/** Change detection and the polling cycle: `normalize_entries` renders a
    snapshot as one `position|name|points` line per entry, the cycle of
    `main` hashes that text, saves the report, and posts only when the
    hash differs from the last posted one (or `--always-post` is given). */
module ChangeDetector {
  import opened Ranking
  import opened PyText
  import opened Extraction

  // ---------------------------------------------------------------------
  // Normalisation

  /** One entry's line. */
  function EntryLine(e: RankingEntry): string
  {
    e.position + "|" + e.name + "|" + e.points
  }

  function Lines(es: seq<RankingEntry>): seq<string>
  {
    if es == [] then [] else [EntryLine(es[0])] + Lines(es[1..])
  }

  /** `normalize_entries`: the lines joined by newlines. The report's
      timestamp plays no part in it. */
  function NormalizeEntries(es: seq<RankingEntry>): (r: string)
    ensures es == [] ==> r == ""
    ensures |es| == 1 ==> r == es[0].position + "|" + es[0].name + "|" + es[0].points
  {
    assert |es| == 1 ==> Lines(es) == [EntryLine(es[0])] by {
      if |es| == 1 {
        assert es[1..] == [];
        assert Lines(es) == [EntryLine(es[0])] + Lines([]);
      }
    }
    Join("\n", Lines(es))
  }

  lemma {:induction false} LinesAppend(a: seq<RankingEntry>, b: seq<RankingEntry>)
    ensures Lines(a + b) == Lines(a) + Lines(b)
    decreases |a|
  {
    if a == [] {
      assert a + b == b;
    } else {
      assert (a + b)[0] == a[0] && (a + b)[1..] == a[1..] + b;
      LinesAppend(a[1..], b);
    }
  }

  /** The text of two snapshots put together is their two texts on
      consecutive lines: entries keep their order, one line each. */
  lemma NormalizeAppend(a: seq<RankingEntry>, b: seq<RankingEntry>)
    requires a != [] && b != []
    ensures NormalizeEntries(a + b) == NormalizeEntries(a) + "\n" + NormalizeEntries(b)
  {
    LinesAppend(a, b);
    assert Lines(a) != [] && Lines(b) != [];
    JoinAppend("\n", Lines(a), Lines(b));
  }

  /** `str.split(c)`: the pieces between the occurrences of `c`. */
  function SplitOn(s: string, c: char): (r: seq<string>)
    ensures |r| >= 1
    decreases |s|
  {
    if s == [] then [""]
    else
      var rest := SplitOn(s[1..], c);
      if s[0] == c then [""] + rest else [[s[0]] + rest[0]] + rest[1..]
  }

  /** Reads one line back into an entry. */
  function ParseLine(line: string): Option<RankingEntry>
  {
    var f := SplitOn(line, '|');
    if |f| == 3 then Some(RankingEntry(f[0], f[1], f[2])) else None
  }

  function ParseLines(lines: seq<string>): Option<seq<RankingEntry>>
  {
    if lines == [] then Some([])
    else
      match ParseLine(lines[0])
      case None => None
      case Some(e) =>
        match ParseLines(lines[1..])
        case None => None
        case Some(rest) => Some([e] + rest)
  }

  /** The inverse of `normalize_entries`, where one exists. */
  function ParseNormalized(text: string): Option<seq<RankingEntry>>
  {
    if text == "" then Some([]) else ParseLines(SplitOn(text, '\n'))
  }

  /** No field holds a separator of the normalised form. */
  predicate Plain(e: RankingEntry)
  {
    && '|' !in e.position && '|' !in e.name && '|' !in e.points
    && '\n' !in e.position && '\n' !in e.name && '\n' !in e.points
  }

  lemma {:induction false} SplitNoSep(a: string, c: char)
    requires c !in a
    ensures SplitOn(a, c) == [a]
    decreases |a|
  {
    if a != [] {
      assert a[1..] + [] == a[1..];
      SplitNoSep(a[1..], c);
      assert [a[0]] + a[1..] == a;
    }
  }

  lemma {:induction false} SplitSep(a: string, c: char, b: string)
    requires c !in a
    ensures SplitOn(a + [c] + b, c) == [a] + SplitOn(b, c)
    decreases |a|
  {
    var s := a + [c] + b;
    if a == [] {
      assert s[0] == c && s[1..] == b;
    } else {
      assert s[0] == a[0] && s[1..] == a[1..] + [c] + b;
      SplitSep(a[1..], c, b);
      assert [a[0]] + a[1..] == a;
    }
  }

  /** Splitting a join on its separator gives the parts back when no part
      holds the separator. */
  lemma {:induction false} SplitJoin(parts: seq<string>, c: char)
    requires parts != []
    requires forall i :: 0 <= i < |parts| ==> c !in parts[i]
    ensures SplitOn(Join([c], parts), c) == parts
    decreases |parts|
  {
    if |parts| == 1 {
      SplitNoSep(parts[0], c);
    } else {
      SplitJoin(parts[1..], c);
      SplitSep(parts[0], c, Join([c], parts[1..]));
      assert [parts[0]] + parts[1..] == parts;
    }
  }

  lemma EntryLineFields(e: RankingEntry)
    requires Plain(e)
    ensures ParseLine(EntryLine(e)) == Some(e)
    ensures '\n' !in EntryLine(e)
  {
    var tail := e.name + "|" + e.points;
    SplitNoSep(e.points, '|');
    SplitSep(e.name, '|', e.points);
    assert SplitOn(tail, '|') == [e.name, e.points];
    assert EntryLine(e) == e.position + ['|'] + tail by {
      AppendAssoc(e.position + "|", e.name, "|" + e.points);
      AppendAssoc(e.position + "|" + e.name, "|", e.points);
      AppendAssoc(e.position, "|", e.name + "|" + e.points);
    }
    SplitSep(e.position, '|', tail);
    assert SplitOn(EntryLine(e), '|') == [e.position, e.name, e.points];
    var line := EntryLine(e);
    forall i | 0 <= i < |line|
      ensures line[i] != '\n'
    {
      if i < |e.position| {
        assert line[i] == e.position[i];
      } else if i == |e.position| {
      } else if i < |e.position| + 1 + |e.name| {
        assert line[i] == e.name[i - |e.position| - 1];
      } else if i == |e.position| + 1 + |e.name| {
      } else {
        assert line[i] == e.points[i - |e.position| - 2 - |e.name|];
      }
    }
  }

  lemma {:induction false} ParseLinesOfLines(es: seq<RankingEntry>)
    requires forall i :: 0 <= i < |es| ==> Plain(es[i])
    ensures ParseLines(Lines(es)) == Some(es)
    ensures forall i :: 0 <= i < |Lines(es)| ==> '\n' !in Lines(es)[i]
    ensures |Lines(es)| == |es|
  {
    if es != [] {
      EntryLineFields(es[0]);
      ParseLinesOfLines(es[1..]);
      var ls := Lines(es);
      assert ls[1..] == Lines(es[1..]);
      assert [es[0]] + es[1..] == es;
      forall i | 0 <= i < |ls|
        ensures '\n' !in ls[i]
      {
        if i > 0 {
          assert ls[i] == Lines(es[1..])[i - 1];
        }
      }
    }
  }

  /** A normalised snapshot whose fields hold no `|` and no newline reads
      back to the same entries. */
  lemma NormalizeRoundTrip(es: seq<RankingEntry>)
    requires forall i :: 0 <= i < |es| ==> Plain(es[i])
    ensures ParseNormalized(NormalizeEntries(es)) == Some(es)
  {
    ParseLinesOfLines(es);
    if es != [] {
      NormalizeNonEmpty(es);
      SplitJoin(Lines(es), '\n');
    }
  }

  /** The empty snapshot, and only it, normalises to the empty text. */
  lemma NormalizeNonEmpty(es: seq<RankingEntry>)
    ensures NormalizeEntries(es) == "" <==> es == []
  {
    if es != [] {
      var ls := Lines(es);
      assert ls[0] == EntryLine(es[0]);
      assert |EntryLine(es[0])| >= 2;
      if |ls| == 1 {
      } else {
        assert Join("\n", ls) == ls[0] + "\n" + Join("\n", ls[1..]);
      }
    }
  }

  /** So two such snapshots have the same normalised text only when they are
      the same list: reordering, adding, removing or editing an entry always
      changes the text that is hashed. */
  lemma NormalizeInjective(a: seq<RankingEntry>, b: seq<RankingEntry>)
    requires forall i :: 0 <= i < |a| ==> Plain(a[i])
    requires forall i :: 0 <= i < |b| ==> Plain(b[i])
    requires NormalizeEntries(a) == NormalizeEntries(b)
    ensures a == b
  {
    NormalizeRoundTrip(a);
    NormalizeRoundTrip(b);
  }

  /** A `|` inside a field makes different snapshots normalise alike, so
      such a change goes unnoticed. */
  lemma NormalizeCollision()
    ensures NormalizeEntries([RankingEntry("1|a", "b", "c")]) == NormalizeEntries([RankingEntry("1", "a|b", "c")])
    ensures [RankingEntry("1|a", "b", "c")] != [RankingEntry("1", "a|b", "c")]
  {
    assert [RankingEntry("1|a", "b", "c")][1..] == [];
    assert [RankingEntry("1", "a|b", "c")][1..] == [];
    assert "1|a" + "|" + "b" + "|" + "c" == "1" + "|" + "a|b" + "|" + "c";
  }

  // ---------------------------------------------------------------------
  // The polling cycle

  /** Whether a cycle posts: always with `--always-post`, else only when the
      hash differs from the last one posted (or none was). */
  predicate ShouldPost(alwaysPost: bool, current: string, last: Option<string>)
  {
    alwaysPost || last != Some(current)
  }

  /** What the world hands one cycle: the outcome of `fetch_rankings`, the
      report `build_report` rendered (it holds the clock's timestamp) and
      whether delivering it succeeded (`post_to_stdout` always does). */
  datatype Poll = Poll(fetched: FetchResult, report: string, delivered: bool)

  /** What the watcher keeps and writes: the hash in memory, the hash in the
      state file, the output file and the messages posted so far. */
  datatype WatchState = WatchState(lastHash: Option<string>, savedHash: Option<string>,
                                   output: Option<string>, posted: seq<string>)

  /** The state `main` starts from, given the loaded state file. */
  function Initial(saved: map<string, string>): WatchState
  {
    var last := if "last_hash" in saved then Some(saved["last_hash"]) else None;
    WatchState(last, last, None, [])
  }

  /** One pass of the loop in `main`. A failed fetch or a failed delivery
      raises, and the handler leaves the hashes as they were. */
  function CycleStep(s: WatchState, alwaysPost: bool, hash: string -> string, poll: Poll): WatchState
  {
    match poll.fetched
    case ExtractionFailed(_) => s
    case Fetched(es) =>
      var current := hash(NormalizeEntries(es));
      var saved := s.(output := Some(poll.report));
      if !ShouldPost(alwaysPost, current, s.lastHash) || !poll.delivered then saved
      else saved.(lastHash := Some(current), savedHash := Some(current), posted := s.posted + [poll.report])
  }

  function RunCycles(s: WatchState, alwaysPost: bool, hash: string -> string, polls: seq<Poll>): WatchState
  {
    if polls == [] then s
    else CycleStep(RunCycles(s, alwaysPost, hash, polls[..|polls| - 1]), alwaysPost, hash, polls[|polls| - 1])
  }

  /** The watcher of `main`, with the state it keeps between cycles. */
  class Watcher {
    var lastHash: Option<string>
    var savedHash: Option<string>
    var output: Option<string>
    var posted: seq<string>

    function State(): WatchState
      reads this
    {
      WatchState(lastHash, savedHash, output, posted)
    }

    /** `last_hash = load_state(...).get("last_hash")`. */
    constructor (saved: map<string, string>)
      ensures State() == Initial(saved)
    {
      lastHash := if "last_hash" in saved then Some(saved["last_hash"]) else None;
      savedHash := lastHash;
      output := None;
      posted := [];
    }

    /** One cycle: save the report, then post and record the hash when
        the snapshot changed. */
    method Cycle(alwaysPost: bool, hash: string -> string, poll: Poll)
      modifies this
      ensures State() == CycleStep(old(State()), alwaysPost, hash, poll)
    {
      if poll.fetched.ExtractionFailed? {
        return;
      }
      var normalized := NormalizeEntries(poll.fetched.entries);
      var current := hash(normalized);
      output := Some(poll.report);
      if alwaysPost || lastHash != Some(current) {
        if !poll.delivered {
          return;
        }
        posted := posted + [poll.report];
        lastHash := Some(current);
        savedHash := lastHash;
      }
    }

    /** `main` after parsing its arguments: an interval under 30 seconds
        ends it with exit code 2 before anything else; otherwise it runs one
        cycle per poll (one with `--run-once`) and returns 0. */
    method Watch(interval: int, alwaysPost: bool, hash: string -> string, polls: seq<Poll>)
      returns (exitCode: int)
      modifies this
      ensures exitCode == (if interval < 30 then 2 else 0)
      ensures interval < 30 ==> State() == old(State())
      ensures interval >= 30 ==> State() == RunCycles(old(State()), alwaysPost, hash, polls)
    {
      if interval < 30 {
        return 2;
      }
      for i := 0 to |polls|
        invariant State() == RunCycles(old(State()), alwaysPost, hash, polls[..i])
      {
        assert polls[..i + 1][..i] == polls[..i];
        Cycle(alwaysPost, hash, polls[i]);
      }
      assert polls[..|polls|] == polls;
      return 0;
    }
  }

  // ---------------------------------------------------------------------
  // Properties of the cycle

  /** A cycle posts exactly when the fetch succeeded, the post was due and
      the delivery went through; it then records the new hash in memory and
      in the state file, and otherwise leaves both alone. */
  lemma CyclePosts(s: WatchState, alwaysPost: bool, hash: string -> string, poll: Poll)
    ensures var t := CycleStep(s, alwaysPost, hash, poll);
      var posts := poll.fetched.Fetched? && poll.delivered
        && ShouldPost(alwaysPost, hash(NormalizeEntries(poll.fetched.entries)), s.lastHash);
      && (posts ==> t.posted == s.posted + [poll.report]
                    && t.lastHash == t.savedHash == Some(hash(NormalizeEntries(poll.fetched.entries))))
      && (!posts ==> t.posted == s.posted && t.lastHash == s.lastHash && t.savedHash == s.savedHash)
      && (poll.fetched.Fetched? ==> t.output == Some(poll.report))
      && (poll.fetched.ExtractionFailed? ==> t == s)
  {
  }

  /** The state file always holds the hash the watcher holds in memory. */
  lemma {:induction false} HashesAgree(s: WatchState, alwaysPost: bool, hash: string -> string, polls: seq<Poll>)
    requires s.lastHash == s.savedHash
    ensures RunCycles(s, alwaysPost, hash, polls).lastHash == RunCycles(s, alwaysPost, hash, polls).savedHash
  {
    if polls != [] {
      HashesAgree(s, alwaysPost, hash, polls[..|polls| - 1]);
    }
  }

  /** Messages are only ever appended, and the hash in memory changes only
      when a message is posted. */
  lemma {:induction false} PostsAppend(s: WatchState, alwaysPost: bool, hash: string -> string, polls: seq<Poll>)
    ensures var t := RunCycles(s, alwaysPost, hash, polls);
      |s.posted| <= |t.posted| && t.posted[..|s.posted|] == s.posted
      && (|t.posted| == |s.posted| ==> t.lastHash == s.lastHash)
  {
    if polls != [] {
      var init := polls[..|polls| - 1];
      PostsAppend(s, alwaysPost, hash, init);
      var m := RunCycles(s, alwaysPost, hash, init);
      var t := CycleStep(m, alwaysPost, hash, polls[|polls| - 1]);
      if |t.posted| > |m.posted| {
        assert t.posted[..|s.posted|] == m.posted[..|s.posted|];
      }
    }
  }

  /** Without `--always-post`, once a snapshot has gone out the same
      snapshot fetched again is not posted a second time, whatever its
      report says. */
  lemma NoRepost(s: WatchState, hash: string -> string, es: seq<RankingEntry>, first: Poll, again: Poll)
    requires first.fetched == Fetched(es) && first.delivered
    requires again.fetched == Fetched(es)
    ensures var t := CycleStep(s, false, hash, first);
      CycleStep(t, false, hash, again).posted == t.posted
  {
  }

  /** Without `--always-post`, when the last posted snapshot was `prev`, a
      fetched snapshot `es` (both free of separators in their fields, and
      hashed without collision between the two) is posted exactly when it
      differs from `prev`. */
  lemma PostsExactlyChanges(s: WatchState, hash: string -> string, prev: seq<RankingEntry>, poll: Poll)
    requires poll.fetched.Fetched? && poll.delivered
    requires s.lastHash == Some(hash(NormalizeEntries(prev)))
    requires forall i :: 0 <= i < |prev| ==> Plain(prev[i])
    requires forall i :: 0 <= i < |poll.fetched.entries| ==> Plain(poll.fetched.entries[i])
    requires hash(NormalizeEntries(poll.fetched.entries)) == hash(NormalizeEntries(prev)) ==>
      NormalizeEntries(poll.fetched.entries) == NormalizeEntries(prev)
    ensures |CycleStep(s, false, hash, poll).posted| == |s.posted| + 1 <==> poll.fetched.entries != prev
    ensures poll.fetched.entries == prev ==> CycleStep(s, false, hash, poll).posted == s.posted
  {
    if hash(NormalizeEntries(poll.fetched.entries)) == hash(NormalizeEntries(prev)) {
      NormalizeInjective(poll.fetched.entries, prev);
    }
  }
}
