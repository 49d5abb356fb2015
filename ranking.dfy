/** The values shared by every stage of the watcher: one ranking row, the
    events an HTML tokeniser reports and an optional value, with one fact
    about sequences. */
module Ranking {

  datatype Option<T> = None | Some(value: T)

  /** One ranking row. The three fields are text, exactly as extracted:
      the position need not be numeric ("1st", "-"). The source's
      `RankingEntry` is a frozen dataclass, so equality is structural. */
  datatype RankingEntry = RankingEntry(position: string, name: string, points: string)

  /** The dedup key of an entry: its `(position, name, points)` triple. */
  function Key(e: RankingEntry): (string, string, string)
  {
    (e.position, e.name, e.points)
  }


  /** What an HTML tokeniser reports to a parser's handlers, in document
      order. Attributes are dropped: neither parser looks at them. */
  datatype Event = StartTag(name: string) | EndTag(name: string) | Data(text: string)

  /** The state a parser with the event handler `step` reaches from `s` when
      it is fed `events`, one at a time and in order. */
  function RunWith<S>(step: (S, Event) -> S, s: S, events: seq<Event>): S
    decreases |events|
  {
    if events == [] then s else RunWith(step, step(s, events[0]), events[1..])
  }

  lemma RunWithCons<S>(step: (S, Event) -> S, s: S, e: Event, rest: seq<Event>)
    ensures RunWith(step, s, [e] + rest) == RunWith(step, step(s, e), rest)
  {
    assert ([e] + rest)[1..] == rest;
  }

  /** Feeding `a + b` is feeding `a`, then `b`. */
  lemma {:induction false} RunWithAppend<S>(step: (S, Event) -> S, s: S, a: seq<Event>, b: seq<Event>)
    ensures RunWith(step, s, a + b) == RunWith(step, RunWith(step, s, a), b)
    decreases |a|
  {
    if a == [] {
      assert a + b == b;
    } else {
      assert (a + b)[0] == a[0] && (a + b)[1..] == a[1..] + b;
      RunWithAppend(step, step(s, a[0]), a[1..], b);
    }
  }

  /** One more event is one more step. */
  lemma RunWithSnoc<S>(step: (S, Event) -> S, s: S, a: seq<Event>, e: Event)
    ensures RunWith(step, s, a + [e]) == step(RunWith(step, s, a), e)
  {
    RunWithAppend(step, s, a, [e]);
    assert [e][1..] == [];
  }

  /** Concatenation regrouped. Stated once here, generically, so that
      proofs about long concatenations of extracted texts need not rederive
      it element by element. */
  lemma AppendAssoc<T>(a: seq<T>, b: seq<T>, c: seq<T>)
    ensures a + b + c == a + (b + c)
  {
  }

  /** A sequence taken apart around its element at `i`. */
  lemma SplitAt<T>(s: seq<T>, i: nat)
    requires i < |s|
    ensures s == s[..i] + [s[i]] + s[i + 1..]
  {
  }
}
