/** The script text extractor: `ScriptContentParser`, which collects the
    stripped, non-empty text chunks that occur inside `<script>` elements. */
module ScriptExtractor {
  import opened PyText
  import opened Ranking

  /** The parser's two fields, as one value. */
  datatype ScriptState = ScriptState(inScript: bool, scripts: seq<string>)

  const Fresh := ScriptState(false, [])

  /** `handle_starttag`: `<script>` opens a script; other tags are ignored. */
  function OnStartTag(s: ScriptState, tag: string): ScriptState
  {
    if tag == "script" then s.(inScript := true) else s
  }

  /** `handle_data`: inside a script, a chunk is kept stripped, unless
      stripping leaves nothing. */
  function OnData(s: ScriptState, data: string): ScriptState
  {
    if s.inScript && Strip(data) != "" then s.(scripts := s.scripts + [Strip(data)]) else s
  }

  /** `handle_endtag`: `</script>` closes the script. */
  function OnEndTag(s: ScriptState, tag: string): ScriptState
  {
    if tag == "script" then s.(inScript := false) else s
  }

  function Step(s: ScriptState, e: Event): ScriptState
  {
    match e
    case StartTag(t) => OnStartTag(s, t)
    case EndTag(t) => OnEndTag(s, t)
    case Data(d) => OnData(s, d)
  }

  function Run(s: ScriptState, events: seq<Event>): ScriptState
  {
    RunWith(Step, s, events)
  }

  /** The script texts a fresh parser holds after being fed `events`. */
  function ScriptsOf(events: seq<Event>): seq<string>
  {
    Run(Fresh, events).scripts
  }

  /** The parser of ranking_watcher.py, with the same two fields. */
  class ScriptContentParser {
    var inScript: bool
    var scripts: seq<string>

    function State(): ScriptState
      reads this
    {
      ScriptState(inScript, scripts)
    }

    constructor ()
      ensures State() == Fresh
    {
      inScript := false;
      scripts := [];
    }

    method HandleStartTag(tag: string)
      modifies this
      ensures State() == OnStartTag(old(State()), tag)
    {
      if tag == "script" {
        inScript := true;
      }
    }

    method HandleData(data: string)
      modifies this
      ensures State() == OnData(old(State()), data)
    {
      if inScript {
        var cleaned := Strip(data);
        if cleaned != "" {
          scripts := scripts + [cleaned];
        }
      }
    }

    method HandleEndTag(tag: string)
      modifies this
      ensures State() == OnEndTag(old(State()), tag)
    {
      if tag == "script" {
        inScript := false;
      }
    }

    /** `feed`: hands every event to its handler, in order. */
    method Feed(events: seq<Event>)
      modifies this
      ensures State() == Run(old(State()), events)
    {
      for i := 0 to |events|
        invariant State() == Run(old(State()), events[..i])
      {
        assert events[..i + 1] == events[..i] + [events[i]];
        RunWithSnoc(Step, old(State()), events[..i], events[i]);
        match events[i] {
          case StartTag(t) => HandleStartTag(t);
          case EndTag(t) => HandleEndTag(t);
          case Data(d) => HandleData(d);
        }
      }
      assert events[..|events|] == events;
    }
  }

  /** The script texts of a freshly fed parser. */
  method CollectScripts(events: seq<Event>) returns (scripts: seq<string>)
    ensures scripts == ScriptsOf(events)
  {
    var parser := new ScriptContentParser();
    parser.Feed(events);
    scripts := parser.scripts;
  }

  // ---------------------------------------------------------------------
  // Properties

  /** A kept script text is non-empty and has nothing more to strip. */
  predicate Clean(t: string)
  {
    t != "" && Stripped(t)
  }

  /** Texts are only ever appended, and each one is clean. */
  lemma {:induction false} RunCollects(s: ScriptState, events: seq<Event>)
    ensures var r := Run(s, events).scripts;
      && |s.scripts| <= |r| && r[..|s.scripts|] == s.scripts
      && (forall i :: |s.scripts| <= i < |r| ==> Clean(r[i]))
    decreases |events|
  {
    if events != [] {
      var e := events[0];
      var s' := Step(s, e);
      RunCollects(s', events[1..]);
      var r := Run(s, events).scripts;
      assert r == Run(s', events[1..]).scripts;
      assert r[..|s.scripts|] == r[..|s'.scripts|][..|s.scripts|];
      if |s'.scripts| > |s.scripts| {
        assert e.Data? && s'.scripts == s.scripts + [Strip(e.text)];
        StripIdempotent(e.text);
        assert r[|s.scripts|] == s'.scripts[|s.scripts|];
      }
    }
  }

  /** Each text appended is the stripped text of a data event that was
      seen. */
  lemma {:induction false} RunProvenance(s: ScriptState, events: seq<Event>, i: nat)
    requires |s.scripts| <= i < |Run(s, events).scripts|
    ensures exists k :: 0 <= k < |events| && events[k].Data? && Strip(events[k].text) == Run(s, events).scripts[i]
    decreases |events|
  {
    var r := Run(s, events).scripts;
    if events != [] {
      var e := events[0];
      var s' := Step(s, e);
      RunCollects(s', events[1..]);
      assert r == Run(s', events[1..]).scripts;
      if i >= |s'.scripts| {
        RunProvenance(s', events[1..], i);
        var k :| 0 <= k < |events[1..]| && events[1..][k].Data? && Strip(events[1..][k].text) == r[i];
        assert events[k + 1] == events[1..][k];
      } else {
        assert s'.scripts == s.scripts + [Strip(e.text)];
        assert r[i] == r[..|s'.scripts|][i];
        assert events[0].Data? && Strip(events[0].text) == r[i];
      }
    }
  }

  /** Every script text the parser reports is non-empty and stripped, and is
      the text of some data event. */
  lemma ScriptsAreClean(events: seq<Event>)
    ensures forall i :: 0 <= i < |ScriptsOf(events)| ==> Clean(ScriptsOf(events)[i])
    ensures forall i :: 0 <= i < |ScriptsOf(events)| ==>
      exists k :: 0 <= k < |events| && events[k].Data? && Strip(events[k].text) == ScriptsOf(events)[i]
  {
    var r := Run(Fresh, events).scripts;
    assert ScriptsOf(events) == r;
    RunCollects(Fresh, events);
    assert |Fresh.scripts| == 0;
    assert forall i :: 0 <= i < |r| ==> Clean(r[i]);
    forall i | 0 <= i < |ScriptsOf(events)|
      ensures exists k :: 0 <= k < |events| && events[k].Data? && Strip(events[k].text) == ScriptsOf(events)[i]
    {
      RunProvenance(Fresh, events, i);
    }
  }

  /** Outside a script nothing is collected until a `<script>` start tag. */
  lemma {:induction false} IdleUntilScript(s: ScriptState, events: seq<Event>)
    requires !s.inScript
    requires forall k :: 0 <= k < |events| ==> events[k] != StartTag("script")
    ensures Run(s, events) == s
    decreases |events|
  {
    if events != [] {
      assert events[0] != StartTag("script");
      assert Step(s, events[0]) == s;
      IdleUntilScript(s, events[1..]);
    }
  }

  /** `<script>t</script>` adds the stripped `t` when it is not blank, and
      nothing when it is. */
  lemma ScriptBlock(kept: seq<string>, t: string, rest: seq<Event>)
    ensures Run(ScriptState(false, kept), [StartTag("script"), Data(t), EndTag("script")] + rest)
         == Run(ScriptState(false, kept + (if AllSpace(t) then [] else [Strip(t)])), rest)
  {
    var s := ScriptState(false, kept);
    var s1 := ScriptState(true, kept);
    var s2 := OnData(s1, t);
    StripSpec(t);
    assert [StartTag("script"), Data(t), EndTag("script")] + rest
        == [StartTag("script")] + ([Data(t)] + ([EndTag("script")] + rest));
    RunWithCons(Step, s, StartTag("script"), [Data(t)] + ([EndTag("script")] + rest));
    RunWithCons(Step, s1, Data(t), [EndTag("script")] + rest);
    RunWithCons(Step, s2, EndTag("script"), rest);
    assert Step(s2, EndTag("script")) == ScriptState(false, kept + (if AllSpace(t) then [] else [Strip(t)]));
  }

  /** A page with one non-blank script and no other `<script>` tag yields
      exactly that script's stripped text, as in the embedded-JSON test of
      test_ranking_watcher.py. */
  lemma SingleScript(before: seq<Event>, t: string, after: seq<Event>)
    requires forall k :: 0 <= k < |before| ==> before[k] != StartTag("script")
    requires forall k :: 0 <= k < |after| ==> after[k] != StartTag("script")
    requires !AllSpace(t)
    ensures ScriptsOf(before + [StartTag("script"), Data(t), EndTag("script")] + after) == [Strip(t)]
  {
    var block := [StartTag("script"), Data(t), EndTag("script")];
    AppendAssoc(before, block, after);
    RunWithAppend(Step, Fresh, before, block + after);
    IdleUntilScript(Fresh, before);
    ScriptBlock([], t, after);
    assert [] + [Strip(t)] == [Strip(t)];
    IdleUntilScript(ScriptState(false, [Strip(t)]), after);
    assert Run(Fresh, before + block + after) == Run(Fresh, block + after);
  }
}
