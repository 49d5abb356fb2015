/** Extraction as the watcher runs it: `parse_rankings_from_embedded_json`,
    which mines every script for JSON payloads and keeps the first entry of
    each `(position, name, points)` triple, and `fetch_rankings`, which
    prefers the table, falls back on the scripts and fails when both come
    up empty. */
module Extraction {
  import opened PyText
  import opened Ranking
  import TableExtractor
  import ScriptExtractor
  import opened JsonEntries

  // ---------------------------------------------------------------------
  // Dedup

  /** The triples of `es`. */
  function KeysOf(es: seq<RankingEntry>): set<(string, string, string)>
  {
    set i | 0 <= i < |es| :: Key(es[i])
  }

  /** The dedup loop: each candidate is kept unless an earlier kept entry has
      its triple. */
  function Dedup(candidates: seq<RankingEntry>): seq<RankingEntry>
  {
    if candidates == [] then []
    else
      var prev := Dedup(candidates[..|candidates| - 1]);
      var e := candidates[|candidates| - 1];
      if Key(e) in KeysOf(prev) then prev else prev + [e]
  }

  /** The loop of `parse_rankings_from_embedded_json` over the candidates,
      with its `seen` set of triples. */
  method DedupEntries(candidates: seq<RankingEntry>) returns (deduped: seq<RankingEntry>)
    ensures deduped == Dedup(candidates)
  {
    deduped := [];
    var seen: set<(string, string, string)> := {};
    for i := 0 to |candidates|
      invariant deduped == Dedup(candidates[..i])
      invariant seen == KeysOf(deduped)
    {
      var entry := candidates[i];
      var key := (entry.position, entry.name, entry.points);
      assert candidates[..i + 1][..i] == candidates[..i];
      if key in seen {
        continue;
      }
      seen := seen + {key};
      KeysOfSnoc(deduped, entry);
      deduped := deduped + [entry];
    }
    assert candidates[..|candidates|] == candidates;
  }

  lemma KeysOfSnoc(es: seq<RankingEntry>, e: RankingEntry)
    ensures KeysOf(es + [e]) == KeysOf(es) + {Key(e)}
  {
    var s := es + [e];
    forall k | k in KeysOf(s)
      ensures k in KeysOf(es) + {Key(e)}
    {
      var i :| 0 <= i < |s| && Key(s[i]) == k;
      if i < |es| {
        assert s[i] == es[i];
      }
    }
    forall k | k in KeysOf(es)
      ensures k in KeysOf(s)
    {
      var i :| 0 <= i < |es| && Key(es[i]) == k;
      assert s[i] == es[i];
    }
    assert Key(s[|es|]) == Key(e);
  }

  /** The dedup keeps exactly the candidates' triples. */
  lemma {:induction false} DedupKeys(candidates: seq<RankingEntry>)
    ensures KeysOf(Dedup(candidates)) == KeysOf(candidates)
  {
    if candidates != [] {
      var init := candidates[..|candidates| - 1];
      var e := candidates[|candidates| - 1];
      DedupKeys(init);
      assert candidates == init + [e];
      KeysOfSnoc(init, e);
      var prev := Dedup(init);
      if Key(e) !in KeysOf(prev) {
        KeysOfSnoc(prev, e);
      }
    }
  }

  /** No two entries of `es` share a triple. */
  predicate Distinct(es: seq<RankingEntry>)
  {
    forall i, j :: 0 <= i < j < |es| ==> Key(es[i]) != Key(es[j])
  }

  /** No two entries of the dedup's output share a triple. */
  lemma {:induction false} DedupDistinct(candidates: seq<RankingEntry>)
    ensures Distinct(Dedup(candidates))
  {
    if candidates != [] {
      var init := candidates[..|candidates| - 1];
      var e := candidates[|candidates| - 1];
      DedupDistinct(init);
      var prev := Dedup(init);
      if Key(e) !in KeysOf(prev) {
        var d := prev + [e];
        forall i, j | 0 <= i < j < |d|
          ensures Key(d[i]) != Key(d[j])
        {
          if j == |prev| {
            assert Key(prev[i]) in KeysOf(prev);
          }
        }
        assert Distinct(d);
      }
    }
  }

  /** `k` is the first index of `candidates` holding its triple. */
  predicate FirstWithKey(candidates: seq<RankingEntry>, k: int)
  {
    0 <= k < |candidates| && forall j :: 0 <= j < k ==> Key(candidates[j]) != Key(candidates[k])
  }

  /** Each output entry is the first candidate with its triple. */
  lemma {:induction false} DedupFirstAt(candidates: seq<RankingEntry>, i: nat)
    requires i < |Dedup(candidates)|
    ensures exists k :: FirstWithKey(candidates, k) && candidates[k] == Dedup(candidates)[i]
  {
    var init := candidates[..|candidates| - 1];
    var e := candidates[|candidates| - 1];
    var prev := Dedup(init);
    if i < |prev| {
      DedupFirstAt(init, i);
      var k :| FirstWithKey(init, k) && init[k] == prev[i];
      assert candidates[k] == init[k];
      assert forall j :: 0 <= j < k ==> candidates[j] == init[j];
      assert FirstWithKey(candidates, k);
      assert Dedup(candidates)[i] == prev[i];
    } else {
      DedupKeys(init);
      var k := |candidates| - 1;
      forall j | 0 <= j < k
        ensures Key(candidates[j]) != Key(candidates[k])
      {
        assert candidates[j] == init[j];
        assert Key(init[j]) in KeysOf(init);
      }
      assert FirstWithKey(candidates, k);
    }
  }

  /** The dedup keeps exactly the first occurrences: every output entry is
      the first candidate with its triple, and every candidate that is the
      first with its triple is in the output. */
  lemma DedupFirstOccurrences(candidates: seq<RankingEntry>)
    ensures forall i :: 0 <= i < |Dedup(candidates)| ==>
      exists k :: FirstWithKey(candidates, k) && candidates[k] == Dedup(candidates)[i]
    ensures forall k :: FirstWithKey(candidates, k) ==> candidates[k] in Dedup(candidates)
  {
    var d := Dedup(candidates);
    forall i | 0 <= i < |d|
      ensures exists k :: FirstWithKey(candidates, k) && candidates[k] == d[i]
    {
      DedupFirstAt(candidates, i);
    }
    forall k | FirstWithKey(candidates, k)
      ensures candidates[k] in d
    {
      FirstKept(candidates, k);
    }
  }

  lemma FirstKept(candidates: seq<RankingEntry>, k: int)
    requires FirstWithKey(candidates, k)
    ensures candidates[k] in Dedup(candidates)
  {
    var d := Dedup(candidates);
    DedupKeys(candidates);
    assert Key(candidates[k]) in KeysOf(candidates);
    var i :| 0 <= i < |d| && Key(d[i]) == Key(candidates[k]);
    DedupFirstAt(candidates, i);
    var k' :| FirstWithKey(candidates, k') && candidates[k'] == d[i];
    assert k' == k;
  }

  /** More candidates never change what was already kept: the output of a
      prefix is a prefix of the output, so entries come in the order of
      their first occurrence. */
  lemma {:induction false} DedupPrefix(c: seq<RankingEntry>, more: seq<RankingEntry>)
    ensures |Dedup(c)| <= |Dedup(c + more)|
    ensures Dedup(c + more)[..|Dedup(c)|] == Dedup(c)
    decreases |more|
  {
    if more == [] {
      assert c + more == c;
    } else {
      var init := more[..|more| - 1];
      DedupPrefix(c, init);
      var all := c + more;
      assert all[..|all| - 1] == c + init;
      var prev := Dedup(c + init);
      assert Dedup(all)[..|prev|] == prev;
      assert Dedup(all)[..|Dedup(c)|] == Dedup(all)[..|prev|][..|Dedup(c)|];
    }
  }

  /** Candidates without repeated triples pass the dedup unchanged. */
  lemma {:induction false} DedupOfDistinct(es: seq<RankingEntry>)
    requires Distinct(es)
    ensures Dedup(es) == es
  {
    if es != [] {
      var init := es[..|es| - 1];
      var e := es[|es| - 1];
      assert Distinct(init) by {
        forall i, j | 0 <= i < j < |init|
          ensures Key(init[i]) != Key(init[j])
        {
          assert init[i] == es[i] && init[j] == es[j];
        }
      }
      DedupOfDistinct(init);
      assert init + [e] == es;
    }
  }

  /** Candidates whose triples were all kept already change nothing. */
  lemma {:induction false} DedupAbsorbs(c: seq<RankingEntry>, more: seq<RankingEntry>)
    requires forall k :: 0 <= k < |more| ==> Key(more[k]) in KeysOf(Dedup(c))
    ensures Dedup(c + more) == Dedup(c)
    decreases |more|
  {
    if more == [] {
      assert c + more == c;
    } else {
      var init := more[..|more| - 1];
      DedupAbsorbs(c, init);
      var all := c + more;
      assert all[..|all| - 1] == c + init;
      assert all[|all| - 1] == more[|more| - 1];
    }
  }

  /** Finding the same distinct entries twice keeps them once. */
  lemma DedupTwice(es: seq<RankingEntry>)
    requires Distinct(es)
    ensures Dedup(es + es) == es
  {
    DedupOfDistinct(es);
    DedupAbsorbs(es, es);
  }

  // ---------------------------------------------------------------------
  // Mining the scripts

  /** The entries of every payload, in order. */
  function PayloadsEntries(payloads: seq<Json>, repr: Json -> string): seq<RankingEntry>
  {
    if payloads == [] then []
    else PayloadsEntries(payloads[..|payloads| - 1], repr) + Walked(payloads[|payloads| - 1], repr)
  }

  /** The candidates: for each script in order, the entries of each payload
      `extract_json_payloads` finds in it. */
  function Candidates(scripts: seq<string>, extract: string -> seq<Json>, repr: Json -> string): seq<RankingEntry>
  {
    if scripts == [] then []
    else Candidates(scripts[..|scripts| - 1], extract, repr) + PayloadsEntries(extract(scripts[|scripts| - 1]), repr)
  }

  /** What `parse_rankings_from_embedded_json` returns for a page whose
      tokeniser reports `events`. */
  function EmbeddedEntries(events: seq<Event>, extract: string -> seq<Json>, repr: Json -> string): seq<RankingEntry>
  {
    Dedup(Candidates(ScriptExtractor.ScriptsOf(events), extract, repr))
  }

  /** `parse_rankings_from_embedded_json`. `extract` stands for
      `extract_json_payloads`. */
  method ParseRankingsFromEmbeddedJson(events: seq<Event>, extract: string -> seq<Json>, repr: Json -> string)
    returns (entries: seq<RankingEntry>)
    ensures entries == EmbeddedEntries(events, extract, repr)
  {
    var scripts := ScriptExtractor.CollectScripts(events);
    var candidates: seq<RankingEntry> := [];
    for i := 0 to |scripts|
      invariant candidates == Candidates(scripts[..i], extract, repr)
    {
      var payloads := extract(scripts[i]);
      var before := candidates;
      for j := 0 to |payloads|
        invariant candidates == before + PayloadsEntries(payloads[..j], repr)
      {
        var found := ExtractEntriesFromJson(payloads[j], repr);
        assert payloads[..j + 1][..j] == payloads[..j];
        AppendAssoc(before, PayloadsEntries(payloads[..j], repr), found);
        candidates := candidates + found;
      }
      assert payloads[..|payloads|] == payloads;
      assert scripts[..i + 1][..i] == scripts[..i];
    }
    assert scripts[..|scripts|] == scripts;
    entries := DedupEntries(candidates);
  }

  /** The embedded-JSON result has no repeated triple, every entry in it was
      found in some payload, and every triple found is in it. */
  lemma EmbeddedEntriesSpec(events: seq<Event>, extract: string -> seq<Json>, repr: Json -> string)
    ensures var es := EmbeddedEntries(events, extract, repr);
      var cs := Candidates(ScriptExtractor.ScriptsOf(events), extract, repr);
      && Distinct(es)
      && (forall i :: 0 <= i < |es| ==> es[i] in cs)
      && KeysOf(es) == KeysOf(cs)
  {
    var cs := Candidates(ScriptExtractor.ScriptsOf(events), extract, repr);
    DedupDistinct(cs);
    DedupKeys(cs);
    var es := Dedup(cs);
    forall i | 0 <= i < |es|
      ensures es[i] in cs
    {
      DedupFirstAt(cs, i);
    }
  }

  /** One script whose payloads are the same JSON value twice (the
      assignment pattern and the bracket pattern of `extract_json_payloads`
      both match the whole object) yields that value's entries once. */
  lemma SamePayloadTwice(before: seq<Event>, t: string, after: seq<Event>,
                         extract: string -> seq<Json>, repr: Json -> string, p: Json)
    requires forall k :: 0 <= k < |before| ==> before[k] != StartTag("script")
    requires forall k :: 0 <= k < |after| ==> after[k] != StartTag("script")
    requires !AllSpace(t)
    requires extract(Strip(t)) == [p, p]
    requires Distinct(Walked(p, repr))
    ensures EmbeddedEntries(before + [StartTag("script"), Data(t), EndTag("script")] + after, extract, repr)
         == Walked(p, repr)
  {
    var events := before + [StartTag("script"), Data(t), EndTag("script")] + after;
    ScriptExtractor.SingleScript(before, t, after);
    var scripts := [Strip(t)];
    assert scripts[..0] == [];
    assert [p, p][..1] == [p] && [p][..0] == [];
    assert PayloadsEntries([p], repr) == Walked(p, repr);
    assert PayloadsEntries([p, p], repr) == Walked(p, repr) + Walked(p, repr);
    assert Candidates(scripts, extract, repr) == PayloadsEntries([p, p], repr);
    DedupTwice(Walked(p, repr));
  }

  // ---------------------------------------------------------------------
  // The fallback of `fetch_rankings`

  datatype FetchResult = Fetched(entries: seq<RankingEntry>) | ExtractionFailed(message: string)

  const NoRowsMessage: string :=
    "No ranking rows were parsed. The page may now use a different structure/API. "
    + "Try --always-post with --output-file and inspect raw page/source."

  /** The table's entries when there are any, else the embedded JSON's when
      there are any, else the failure. */
  function FetchRankings(events: seq<Event>, extract: string -> seq<Json>, repr: Json -> string): FetchResult
  {
    var table := TableExtractor.RowsToEntries(TableExtractor.TableRows(events));
    if table != [] then Fetched(table)
    else
      var embedded := EmbeddedEntries(events, extract, repr);
      if embedded != [] then Fetched(embedded) else ExtractionFailed(NoRowsMessage)
  }

  /** `fetch_rankings` after the page has been fetched: the JSON path runs
      only when the table yields nothing. */
  method FetchRankingsFromPage(events: seq<Event>, extract: string -> seq<Json>, repr: Json -> string)
    returns (r: FetchResult)
    ensures r == FetchRankings(events, extract, repr)
  {
    var entries := TableExtractor.ParseRankingsFromTable(events);
    if entries != [] {
      return Fetched(entries);
    }
    entries := ParseRankingsFromEmbeddedJson(events, extract, repr);
    if entries != [] {
      return Fetched(entries);
    }
    return ExtractionFailed(NoRowsMessage);
  }

  /** A non-empty table decides the result, whatever the scripts hold. */
  lemma TableWins(events: seq<Event>, extract1: string -> seq<Json>, extract2: string -> seq<Json>, repr: Json -> string)
    requires TableExtractor.RowsToEntries(TableExtractor.TableRows(events)) != []
    ensures FetchRankings(events, extract1, repr) == FetchRankings(events, extract2, repr)
      == Fetched(TableExtractor.RowsToEntries(TableExtractor.TableRows(events)))
  {
  }

  /** The fetch fails exactly when both extractions come up empty, and a
      successful fetch never returns an empty list. */
  lemma FetchOutcome(events: seq<Event>, extract: string -> seq<Json>, repr: Json -> string)
    ensures FetchRankings(events, extract, repr).ExtractionFailed? <==>
      TableExtractor.RowsToEntries(TableExtractor.TableRows(events)) == [] && EmbeddedEntries(events, extract, repr) == []
    ensures FetchRankings(events, extract, repr).Fetched? ==> FetchRankings(events, extract, repr).entries != []
    ensures TableExtractor.RowsToEntries(TableExtractor.TableRows(events)) == [] && EmbeddedEntries(events, extract, repr) != [] ==>
      FetchRankings(events, extract, repr) == Fetched(EmbeddedEntries(events, extract, repr))
  {
  }
}
