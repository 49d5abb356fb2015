/** The JSON entry normaliser: `first_present`, which picks the first usable
    key of an object, `try_convert_dict_list_to_entries`, which turns a list
    of objects into ranking entries, and `extract_entries_from_json`, whose
    inner `walk` visits a whole decoded payload. */
module JsonEntries {
  import opened PyText
  import opened Ranking

  /** A value as `json.loads` returns it. `Null` is Python's `None`; a float
      keeps the text it had in the payload, not Python's float formatting;
      an object keeps its members in the order `dict.values()` yields them. */
  datatype Json =
    | Null
    | Bool(b: bool)
    | Int(i: int)
    | Float(text: string)
    | Str(s: string)
    | Arr(items: seq<Json>)
    | Obj(fields: seq<Member>)

  datatype Member = Member(key: string, value: Json)

  /** `item[key]` when `key in item`, for an object whose keys are distinct
      (as those of a decoded dictionary are). */
  function Get(fields: seq<Member>, key: string): Option<Json>
  {
    if fields == [] then None
    else if fields[0].key == key then Some(fields[0].value)
    else Get(fields[1..], key)
  }

  /** `Get` finds the first member with the key, and nothing when there is
      none. */
  lemma {:induction false} GetSpec(fields: seq<Member>, key: string)
    ensures Get(fields, key).None? <==> forall i :: 0 <= i < |fields| ==> fields[i].key != key
    ensures Get(fields, key).Some? ==>
      exists i :: 0 <= i < |fields| && fields[i] == Member(key, Get(fields, key).value)
        && forall j :: 0 <= j < i ==> fields[j].key != key
  {
    if fields != [] && fields[0].key != key {
      GetSpec(fields[1..], key);
      if Get(fields, key).Some? {
        var i :| 0 <= i < |fields[1..]| && fields[1..][i] == Member(key, Get(fields, key).value)
          && forall j :: 0 <= j < i ==> fields[1..][j].key != key;
        assert fields[i + 1] == fields[1..][i];
        forall j | 0 <= j < i + 1
          ensures fields[j].key != key
        {
          if j > 0 {
            assert fields[j] == fields[1..][j - 1];
          }
        }
      } else {
        forall i | 0 <= i < |fields|
          ensures fields[i].key != key
        {
          if i > 0 {
            assert fields[i] == fields[1..][i - 1];
          }
        }
      }
    }
  }

  /** A looked-up value counts when the key is present and the value is
      neither `None` nor the empty string. */
  predicate Usable(v: Option<Json>)
  {
    v.Some? && v.value != Null && v.value != Str("")
  }

  /** `first_present(item, keys)`: the value of the first usable key. */
  function FirstPresent(fields: seq<Member>, keys: seq<string>): Option<Json>
  {
    if keys == [] then None
    else if Usable(Get(fields, keys[0])) then Get(fields, keys[0])
    else FirstPresent(fields, keys[1..])
  }

  /** `first_present` returns the value of the earliest key, in the given
      order, that is usable, and `None` exactly when no key is. */
  lemma {:induction false} FirstPresentSpec(fields: seq<Member>, keys: seq<string>)
    ensures FirstPresent(fields, keys).None? <==> forall k :: 0 <= k < |keys| ==> !Usable(Get(fields, keys[k]))
    ensures FirstPresent(fields, keys).Some? ==>
      exists k :: 0 <= k < |keys| && Usable(Get(fields, keys[k])) && FirstPresent(fields, keys) == Get(fields, keys[k])
        && forall j :: 0 <= j < k ==> !Usable(Get(fields, keys[j]))
  {
    if keys != [] && !Usable(Get(fields, keys[0])) {
      FirstPresentSpec(fields, keys[1..]);
      if FirstPresent(fields, keys).Some? {
        var k :| 0 <= k < |keys[1..]| && Usable(Get(fields, keys[1..][k]))
          && FirstPresent(fields, keys) == Get(fields, keys[1..][k])
          && forall j :: 0 <= j < k ==> !Usable(Get(fields, keys[1..][j]));
        assert keys[k + 1] == keys[1..][k];
        forall j | 0 <= j < k + 1
          ensures !Usable(Get(fields, keys[j]))
        {
          if j > 0 {
            assert keys[j] == keys[1..][j - 1];
          }
        }
      } else {
        forall k | 0 <= k < |keys|
          ensures !Usable(Get(fields, keys[k]))
        {
          if k > 0 {
            assert keys[k] == keys[1..][k - 1];
          }
        }
      }
    }
  }

  /** A value `first_present` returns is usable. */
  lemma {:induction false} FirstPresentUsable(fields: seq<Member>, keys: seq<string>)
    ensures FirstPresent(fields, keys).Some? ==> Usable(FirstPresent(fields, keys))
  {
    if keys != [] && !Usable(Get(fields, keys[0])) {
      FirstPresentUsable(fields, keys[1..]);
    }
  }

  /** `first_present` as the source writes it: a loop over the keys that
      returns at the first usable one. */
  method FindFirstPresent(item: seq<Member>, keys: seq<string>) returns (r: Option<Json>)
    ensures r == FirstPresent(item, keys)
  {
    for i := 0 to |keys|
      invariant FirstPresent(item, keys) == FirstPresent(item, keys[i..])
    {
      var v := Get(item, keys[i]);
      if Usable(v) {
        return v;
      }
      assert keys[i..][1..] == keys[i + 1..];
    }
    return None;
  }

  /** Python's `str()` of an `int`: a minus sign exactly when it is
      negative, then the decimal digits of its magnitude. */
  function IntToString(i: int): (r: string)
    ensures r != [] && (r[0] == '-' <==> i < 0)
    ensures var digits := if i < 0 then r[1..] else r;
      digits != [] && (forall k :: 0 <= k < |digits| ==> '0' <= digits[k] <= '9')
      && DigitsValue(digits) == (if i < 0 then -i else i)
  {
    var magnitude: nat := if i < 0 then -i else i;
    NatToStringRoundTrip(magnitude);
    if i < 0 then
      assert ("-" + NatToString(magnitude))[1..] == NatToString(magnitude);
      "-" + NatToString(magnitude)
    else NatToString(magnitude)
  }

  /** Python's `str()` of a decoded value; a list or a dictionary goes
      through `repr`, which stands for Python's own rendering of them. */
  function Stringify(v: Json, repr: Json -> string): string
  {
    match v
    case Null => "None"
    case Bool(b) => if b then "True" else "False"
    case Int(i) => IntToString(i)
    case Float(text) => text
    case Str(s) => s
    case Arr(_) => repr(v)
    case Obj(_) => repr(v)
  }

  /** `str()` of a scalar: `None`, `True` and `False` are spelled as Python
      spells them, a string is itself, an `int` reads back to itself, and
      the rendering of lists and mappings plays no part. */
  lemma StringifySpec(v: Json, repr: Json -> string, other: Json -> string)
    ensures v.Null? ==> Stringify(v, repr) == "None"
    ensures v.Bool? ==> Stringify(v, repr) == (if v.b then "True" else "False")
    ensures v.Str? ==> Stringify(v, repr) == v.s
    ensures v.Int? ==> var r := Stringify(v, repr);
      r != [] && (r[0] == '-' <==> v.i < 0)
      && DigitsValue(if v.i < 0 then r[1..] else r) == (if v.i < 0 then -v.i else v.i)
    ensures !v.Arr? && !v.Obj? ==> Stringify(v, repr) == Stringify(v, other)
  {
  }

  const NameKeys: seq<string> := ["name", "driverName", "driver", "participant", "teamName", "fullName"]
  const PointsKeys: seq<string> := ["points", "point", "score", "totalPoints", "pts"]
  const PositionKeys: seq<string> := ["position", "rank", "place", "ranking"]

  /** One item of the list, when `accepted` entries were accepted before
      it: skipped without a name or points; an absent position becomes the
      next number; every field is stringified and stripped. */
  function ConvertItem(fields: seq<Member>, accepted: nat, repr: Json -> string): Option<RankingEntry>
  {
    var name := FirstPresent(fields, NameKeys);
    var points := FirstPresent(fields, PointsKeys);
    var position := FirstPresent(fields, PositionKeys);
    if name.None? || points.None? then None
    else
      var pos := if position.None? then NatToString(accepted + 1) else Stringify(position.value, repr);
      Some(RankingEntry(Strip(pos), Strip(Stringify(name.value, repr)), Strip(Stringify(points.value, repr))))
  }

  predicate AllObjects(items: seq<Json>)
  {
    forall i :: 0 <= i < |items| ==> items[i].Obj?
  }

  /** The entries the conversion loop accumulates over `items`. */
  function Converted(items: seq<Json>, repr: Json -> string): seq<RankingEntry>
  {
    if items == [] then []
    else
      var prev := Converted(items[..|items| - 1], repr);
      var last := items[|items| - 1];
      var e := if last.Obj? then ConvertItem(last.fields, |prev|, repr) else None;
      if e.Some? then prev + [e.value] else prev
  }

  /** `try_convert_dict_list_to_entries`. */
  function TryConvert(node: Json, repr: Json -> string): Option<seq<RankingEntry>>
  {
    if !node.Arr? || node.items == [] then None
    else if !AllObjects(node.items) then None
    else
      var es := Converted(node.items, repr);
      if es == [] then None else Some(es)
  }

  /** The conversion loop of `try_convert_dict_list_to_entries`. */
  method ConvertDictList(node: Json, repr: Json -> string) returns (r: Option<seq<RankingEntry>>)
    ensures r == TryConvert(node, repr)
  {
    if !node.Arr? || node.items == [] {
      return None;
    }
    if !AllObjects(node.items) {
      return None;
    }
    var items := node.items;
    var entries: seq<RankingEntry> := [];
    for i := 0 to |items|
      invariant entries == Converted(items[..i], repr)
    {
      var item := items[i].fields;
      var name := FindFirstPresent(item, NameKeys);
      var points := FindFirstPresent(item, PointsKeys);
      var position := FindFirstPresent(item, PositionKeys);
      ConvertedSnoc(items, i, repr);
      if name.None? || points.None? {
        continue;
      }
      var pos := if position.None? then NatToString(|entries| + 1) else Stringify(position.value, repr);
      entries := entries + [RankingEntry(Strip(pos), Strip(Stringify(name.value, repr)), Strip(Stringify(points.value, repr)))];
    }
    assert items[..|items|] == items;
    if entries == [] {
      return None;
    }
    return Some(entries);
  }

  lemma ConvertedSnoc(items: seq<Json>, i: nat, repr: Json -> string)
    requires i < |items| && items[i].Obj?
    ensures var prev := Converted(items[..i], repr);
      var e := ConvertItem(items[i].fields, |prev|, repr);
      Converted(items[..i + 1], repr) == if e.Some? then prev + [e.value] else prev
  {
    assert items[..i + 1][..i] == items[..i];
  }

  /** The conversion answers `None` exactly for a non-list, an empty list, a
      list with an element that is not an object, and a list none of whose
      objects is accepted; otherwise it answers the non-empty entries of the
      conversion loop. */
  lemma TryConvertSpec(node: Json, repr: Json -> string)
    ensures TryConvert(node, repr).None? <==>
      (!node.Arr? || node.items == [] || !AllObjects(node.items) || Converted(node.items, repr) == [])
    ensures TryConvert(node, repr).Some? ==>
      TryConvert(node, repr).value != [] && TryConvert(node, repr).value == Converted(node.items, repr)
  {
  }

  /** An object without a usable name or without usable points is skipped. */
  lemma SkippedItem(items: seq<Json>, fields: seq<Member>, repr: Json -> string)
    requires FirstPresent(fields, NameKeys).None? || FirstPresent(fields, PointsKeys).None?
    ensures Converted(items + [Obj(fields)], repr) == Converted(items, repr)
  {
    assert (items + [Obj(fields)])[..|items|] == items;
  }

  /** An object with a usable name and usable points adds one entry, and
      without a usable position that entry is numbered by how many entries
      were accepted before it, plus one, whatever its index in the list. */
  lemma AcceptedItem(items: seq<Json>, fields: seq<Member>, repr: Json -> string)
    requires FirstPresent(fields, NameKeys).Some? && FirstPresent(fields, PointsKeys).Some?
    ensures var es := Converted(items + [Obj(fields)], repr);
      && |es| == |Converted(items, repr)| + 1
      && es[..|es| - 1] == Converted(items, repr)
      && (FirstPresent(fields, PositionKeys).None? ==>
            es[|es| - 1].position == NatToString(|Converted(items, repr)| + 1))
      && (FirstPresent(fields, PositionKeys).Some? ==>
            es[|es| - 1].position == Strip(Stringify(FirstPresent(fields, PositionKeys).value, repr)))
      && es[|es| - 1].name == Strip(Stringify(FirstPresent(fields, NameKeys).value, repr))
      && es[|es| - 1].points == Strip(Stringify(FirstPresent(fields, PointsKeys).value, repr))
  {
    assert (items + [Obj(fields)])[..|items|] == items;
    if FirstPresent(fields, PositionKeys).None? {
      NatToStringStripped(|Converted(items, repr)| + 1);
    }
  }

  /** The conversion never has more entries than the list has items. */
  lemma {:induction false} ConvertedBound(items: seq<Json>, repr: Json -> string)
    ensures |Converted(items, repr)| <= |items|
  {
    if items != [] {
      ConvertedBound(items[..|items| - 1], repr);
    }
  }

  predicate EntryTrimmed(e: RankingEntry)
  {
    Stripped(e.position) && Stripped(e.name) && Stripped(e.points)
  }

  /** Every field of every entry in `es` is stripped. */
  predicate AllTrimmed(es: seq<RankingEntry>)
  {
    forall k :: 0 <= k < |es| ==> EntryTrimmed(es[k])
  }

  /** Every converted field is stripped: no leading or trailing whitespace. */
  lemma {:induction false} ConvertedTrimmed(items: seq<Json>, repr: Json -> string)
    ensures AllTrimmed(Converted(items, repr))
  {
    if items != [] {
      var init := items[..|items| - 1];
      ConvertedTrimmed(init, repr);
      var last := items[|items| - 1];
      var prev := Converted(init, repr);
      if last.Obj? && ConvertItem(last.fields, |prev|, repr).Some? {
        var e := ConvertItem(last.fields, |prev|, repr).value;
        var name := FirstPresent(last.fields, NameKeys).value;
        var points := FirstPresent(last.fields, PointsKeys).value;
        var pos := if FirstPresent(last.fields, PositionKeys).None? then NatToString(|prev| + 1)
                   else Stringify(FirstPresent(last.fields, PositionKeys).value, repr);
        StripIdempotent(pos);
        StripIdempotent(Stringify(name, repr));
        StripIdempotent(Stringify(points, repr));
        assert EntryTrimmed(e);
        assert Converted(items, repr) == prev + [e];
      }
    }
  }

  /** A name of whitespace only is usable (it is not the empty string), so
      the item is accepted and its entry has an empty name. */
  lemma BlankNameAccepted(items: seq<Json>, pad: string, points: Json, repr: Json -> string)
    requires pad != [] && AllSpace(pad)
    requires points != Null && points != Str("")
    ensures var es := Converted(items + [Obj([Member("name", Str(pad)), Member("points", points)])], repr);
      es != [] && es[|es| - 1].name == ""
  {
    var fields := [Member("name", Str(pad)), Member("points", points)];
    assert Get(fields, "name") == Some(Str(pad));
    assert FirstPresent(fields, NameKeys) == Some(Str(pad));
    assert Get(fields, "points") == Some(points);
    assert FirstPresent(fields, PointsKeys) == Some(points);
    AcceptedItem(items, fields, repr);
    StripSpec(pad);
  }

  // ---------------------------------------------------------------------
  // The walk

  /** What a mapping's `"data"` member looks like to the conversion: the
      member's value, or `None` when there is none. */
  function DataOf(fields: seq<Member>): Json
  {
    var d := Get(fields, "data");
    if d.Some? then d.value else Null
  }

  function Entries(r: Option<seq<RankingEntry>>): seq<RankingEntry>
  {
    if r.Some? then r.value else []
  }

  /** What `walk` adds at `node` itself, before visiting its children. */
  function Here(node: Json, repr: Json -> string): seq<RankingEntry>
  {
    match node
    case Arr(items) => if items != [] && AllObjects(items) then Entries(TryConvert(node, repr)) else []
    case Obj(fields) => Entries(TryConvert(DataOf(fields), repr))
    case _ => []
  }

  /** The entries `walk(node)` appends, in the order it appends them: the
      node's own contribution, then each child's walk in order. */
  function Walked(node: Json, repr: Json -> string): seq<RankingEntry>
  {
    match node
    case Arr(items) => Here(node, repr) + WalkedItems(items, repr)
    case Obj(fields) => Here(node, repr) + WalkedValues(fields, repr)
    case _ => []
  }

  function WalkedItems(items: seq<Json>, repr: Json -> string): seq<RankingEntry>
  {
    if items == [] then []
    else WalkedItems(items[..|items| - 1], repr) + Walked(items[|items| - 1], repr)
  }

  function WalkedValues(fields: seq<Member>, repr: Json -> string): seq<RankingEntry>
  {
    if fields == [] then []
    else WalkedValues(fields[..|fields| - 1], repr) + Walked(fields[|fields| - 1].value, repr)
  }

  /** The two conversion calls of `walk`: a non-empty list of mappings is
      converted, and so is a mapping's `"data"` value; an answer of `None`
      adds nothing. */
  method HereEntries(node: Json, repr: Json -> string) returns (es: seq<RankingEntry>)
    ensures es == Here(node, repr)
  {
    es := [];
    match node {
      case Arr(items) =>
        if items != [] && AllObjects(items) {
          var maybe := ConvertDictList(node, repr);
          if maybe.Some? {
            es := maybe.value;
          }
        }
      case Obj(fields) =>
        var maybe := ConvertDictList(DataOf(fields), repr);
        if maybe.Some? {
          es := maybe.value;
        }
      case _ =>
    }
  }

  /** `walk`, appending to the shared result list `results`. */
  method Walk(node: Json, results: seq<RankingEntry>, repr: Json -> string) returns (out: seq<RankingEntry>)
    ensures out == results + Walked(node, repr)
  {
    var here := HereEntries(node, repr);
    match node {
      case Arr(items) =>
        out := WalkItems(items, results + here, repr);
        AppendAssoc(results, here, WalkedItems(items, repr));
      case Obj(fields) =>
        out := WalkValues(fields, results + here, repr);
        AppendAssoc(results, here, WalkedValues(fields, repr));
      case _ =>
        out := results;
    }
  }

  /** The `for item in node: walk(item)` loop. */
  method WalkItems(items: seq<Json>, results: seq<RankingEntry>, repr: Json -> string) returns (out: seq<RankingEntry>)
    ensures out == results + WalkedItems(items, repr)
  {
    out := results;
    for i := 0 to |items|
      invariant out == results + WalkedItems(items[..i], repr)
    {
      assert items[..i + 1][..i] == items[..i];
      out := Walk(items[i], out, repr);
      AppendAssoc(results, WalkedItems(items[..i], repr), Walked(items[i], repr));
    }
    assert items[..|items|] == items;
  }

  /** The `for value in node.values(): walk(value)` loop. */
  method WalkValues(fields: seq<Member>, results: seq<RankingEntry>, repr: Json -> string) returns (out: seq<RankingEntry>)
    ensures out == results + WalkedValues(fields, repr)
  {
    out := results;
    for i := 0 to |fields|
      invariant out == results + WalkedValues(fields[..i], repr)
    {
      assert fields[..i + 1][..i] == fields[..i];
      out := Walk(fields[i].value, out, repr);
      AppendAssoc(results, WalkedValues(fields[..i], repr), Walked(fields[i].value, repr));
    }
    assert fields[..|fields|] == fields;
  }

  /** `extract_entries_from_json`. */
  method ExtractEntriesFromJson(payload: Json, repr: Json -> string) returns (results: seq<RankingEntry>)
    ensures results == Walked(payload, repr)
  {
    results := Walk(payload, [], repr);
  }

  /** A non-empty list of mappings contributes its conversion, which is
      empty when no item is accepted. */
  lemma HereOfList(items: seq<Json>, repr: Json -> string)
    requires items != [] && AllObjects(items)
    ensures Entries(TryConvert(Arr(items), repr)) == Converted(items, repr)
    ensures Here(Arr(items), repr) == Converted(items, repr)
  {
  }

  /** One more member adds its value's walk at the end. */
  lemma WalkedValuesSnoc(fields: seq<Member>, m: Member, repr: Json -> string)
    ensures WalkedValues(fields + [m], repr) == WalkedValues(fields, repr) + Walked(m.value, repr)
  {
    var fs := fields + [m];
    assert fs[..|fs| - 1] == fields;
    assert fs[|fs| - 1] == m;
  }

  /** The values' walks of `a + b` are those of `a`, then those of `b`. */
  lemma {:induction false} WalkedValuesAppend(a: seq<Member>, b: seq<Member>, repr: Json -> string)
    ensures WalkedValues(a + b, repr) == WalkedValues(a, repr) + WalkedValues(b, repr)
    decreases |b|
  {
    if b == [] {
      assert a + b == a;
    } else {
      var init, last := b[..|b| - 1], b[|b| - 1];
      assert b == init + [last];
      assert a + b == (a + init) + [last];
      WalkedValuesAppend(a, init, repr);
      WalkedValuesSnoc(a + init, last, repr);
      WalkedValuesSnoc(init, last, repr);
      AppendAssoc(WalkedValues(a, repr), WalkedValues(init, repr), Walked(last.value, repr));
    }
  }

  /** The values' walks of a mapping, split around its member at `i`. */
  lemma WalkedValuesAt(fields: seq<Member>, i: nat, repr: Json -> string)
    requires i < |fields|
    ensures WalkedValues(fields, repr)
         == WalkedValues(fields[..i], repr) + Walked(fields[i].value, repr) + WalkedValues(fields[i + 1..], repr)
  {
    var pre, m, post := fields[..i], fields[i], fields[i + 1..];
    SplitAt(fields, i);
    var upto := pre + [m];
    WalkedValuesAppend(upto, post, repr);
    WalkedValuesSnoc(pre, m, repr);
  }

  /** A mapping whose `"data"` is a non-empty list of mappings contributes
      that list's entries first, through the lookup, and then again when the
      walk reaches the list among its values. */
  lemma DataListTwice(fields: seq<Member>, items: seq<Json>, repr: Json -> string)
    requires DataOf(fields) == Arr(items) && items != [] && AllObjects(items)
    ensures Walked(Obj(fields), repr) == Converted(items, repr) + WalkedValues(fields, repr)
    ensures exists before, after :: WalkedValues(fields, repr) == before + Converted(items, repr) + after
  {
    var es := Converted(items, repr);
    HereOfList(items, repr);
    assert Here(Obj(fields), repr) == es;
    GetSpec(fields, "data");
    var i :| 0 <= i < |fields| && fields[i] == Member("data", Arr(items));
    WalkedValuesAt(fields, i, repr);
    var before := WalkedValues(fields[..i], repr);
    var rest := WalkedValues(fields[i + 1..], repr);
    assert Walked(Arr(items), repr) == es + WalkedItems(items, repr);
    AppendAssoc(before, es, WalkedItems(items, repr));
    AppendAssoc(before + es, WalkedItems(items, repr), rest);
    assert WalkedValues(fields, repr) == before + es + (WalkedItems(items, repr) + rest);
  }

  lemma AllTrimmedAppend(a: seq<RankingEntry>, b: seq<RankingEntry>)
    requires AllTrimmed(a) && AllTrimmed(b)
    ensures AllTrimmed(a + b)
  {
    forall k | 0 <= k < |a + b|
      ensures EntryTrimmed((a + b)[k])
    {
      if k < |a| {
        assert (a + b)[k] == a[k];
      } else {
        assert (a + b)[k] == b[k - |a|];
      }
    }
  }

  lemma HereTrimmed(node: Json, repr: Json -> string)
    ensures AllTrimmed(Here(node, repr))
  {
    match node
    case Arr(items) =>
      ConvertedTrimmed(items, repr);
    case Obj(fields) =>
      var d := DataOf(fields);
      if d.Arr? {
        ConvertedTrimmed(d.items, repr);
      }
    case _ =>
  }

  /** Every entry the walk finds, anywhere in the payload, has stripped
      fields. */
  lemma {:induction false} WalkedTrimmed(node: Json, repr: Json -> string)
    ensures AllTrimmed(Walked(node, repr))
  {
    HereTrimmed(node, repr);
    match node
    case Arr(items) =>
      WalkedItemsTrimmed(items, repr);
      AllTrimmedAppend(Here(node, repr), WalkedItems(items, repr));
    case Obj(fields) =>
      WalkedValuesTrimmed(fields, repr);
      AllTrimmedAppend(Here(node, repr), WalkedValues(fields, repr));
    case _ =>
  }

  lemma {:induction false} WalkedItemsTrimmed(items: seq<Json>, repr: Json -> string)
    ensures AllTrimmed(WalkedItems(items, repr))
  {
    if items != [] {
      WalkedItemsTrimmed(items[..|items| - 1], repr);
      WalkedTrimmed(items[|items| - 1], repr);
      AllTrimmedAppend(WalkedItems(items[..|items| - 1], repr), Walked(items[|items| - 1], repr));
    }
  }

  lemma {:induction false} WalkedValuesTrimmed(fields: seq<Member>, repr: Json -> string)
    ensures AllTrimmed(WalkedValues(fields, repr))
  {
    if fields != [] {
      WalkedValuesTrimmed(fields[..|fields| - 1], repr);
      WalkedTrimmed(fields[|fields| - 1].value, repr);
      AllTrimmedAppend(WalkedValues(fields[..|fields| - 1], repr), Walked(fields[|fields| - 1].value, repr));
    }
  }

  lemma OneMember(m: Member, repr: Json -> string)
    ensures DataOf([m]) == (if m.key == "data" then m.value else Null)
    ensures WalkedValues([m], repr) == Walked(m.value, repr)
  {
    assert [m][1..] == [];
    assert Get([m], "data") == (if m.key == "data" then Some(m.value) else None);
    assert [m][..0] == [];
    assert WalkedValues([m], repr) == WalkedValues([], repr) + Walked(m.value, repr);
  }

  /** A list whose items are all null, booleans, numbers or strings
      contributes nothing to the walk. */
  lemma {:induction false} WalkedItemsScalars(items: seq<Json>, repr: Json -> string)
    requires forall i :: 0 <= i < |items| ==> !items[i].Arr? && !items[i].Obj?
    ensures WalkedItems(items, repr) == []
  {
    if items != [] {
      WalkedItemsScalars(items[..|items| - 1], repr);
    }
  }

  // ---------------------------------------------------------------------
  // Worked examples

  /** `{name: "A", points: "5"}`, `{name: "B", points: "3", position: "9"}`
      and `{name: "C", points: "1"}` get positions "1", "9" and "3": an
      absent position is one more than the number of entries accepted
      before the item, whether or not those had positions of their own. */
  lemma NumberingExample(a: seq<Member>, b: seq<Member>, c: seq<Member>, repr: Json -> string)
    requires a == [Member("name", Str("A")), Member("points", Str("5"))]
    requires b == [Member("name", Str("B")), Member("points", Str("3")), Member("position", Str("9"))]
    requires c == [Member("name", Str("C")), Member("points", Str("1"))]
    ensures var es := Converted([Obj(a)] + [Obj(b)] + [Obj(c)], repr);
      |es| == 3 && es[0].position == "1" && es[1].position == "9" && es[2].position == "3"
  {
    NoPosition(a, Str("A"), Str("5"));
    NoPosition(c, Str("C"), Str("1"));
    PositionNine(b);
    NumberedThree(a, b, c, repr);
  }

  /** Three accepted objects, only the middle one with a position of its
      own, "9". */
  lemma NumberedThree(a: seq<Member>, b: seq<Member>, c: seq<Member>, repr: Json -> string)
    requires FirstPresent(a, NameKeys).Some? && FirstPresent(a, PointsKeys).Some? && FirstPresent(a, PositionKeys).None?
    requires FirstPresent(b, NameKeys).Some? && FirstPresent(b, PointsKeys).Some? && FirstPresent(b, PositionKeys) == Some(Str("9"))
    requires FirstPresent(c, NameKeys).Some? && FirstPresent(c, PointsKeys).Some? && FirstPresent(c, PositionKeys).None?
    requires Strip("9") == "9"
    ensures var es := Converted([Obj(a)] + [Obj(b)] + [Obj(c)], repr);
      |es| == 3 && es[0].position == "1" && es[1].position == "9" && es[2].position == "3"
  {
    NumberedFirst(a, repr);
    NumberedSecond([Obj(a)], b, "1", "9", repr);
    NumberedThird([Obj(a)] + [Obj(b)], c, repr);
  }

  lemma NumberedFirst(a: seq<Member>, repr: Json -> string)
    requires FirstPresent(a, NameKeys).Some? && FirstPresent(a, PointsKeys).Some? && FirstPresent(a, PositionKeys).None?
    ensures |Converted([Obj(a)], repr)| == 1 && Converted([Obj(a)], repr)[0].position == "1"
  {
    assert [Obj(a)] == [] + [Obj(a)];
    AcceptedItem([], a, repr);
    NatToStringSmall();
  }

  lemma NumberedSecond(l: seq<Json>, b: seq<Member>, first: string, p: string, repr: Json -> string)
    requires |Converted(l, repr)| == 1 && Converted(l, repr)[0].position == first
    requires FirstPresent(b, NameKeys).Some? && FirstPresent(b, PointsKeys).Some? && FirstPresent(b, PositionKeys) == Some(Str(p))
    requires Strip(p) == p
    ensures var es := Converted(l + [Obj(b)], repr);
      |es| == 2 && es[0].position == first && es[1].position == p
  {
    Accepted(l, b, repr);
    OwnPosition(b, 1, p, repr);
  }

  lemma NumberedThird(l: seq<Json>, c: seq<Member>, repr: Json -> string)
    requires |Converted(l, repr)| == 2 && Converted(l, repr)[0].position == "1" && Converted(l, repr)[1].position == "9"
    requires FirstPresent(c, NameKeys).Some? && FirstPresent(c, PointsKeys).Some? && FirstPresent(c, PositionKeys).None?
    ensures var es := Converted(l + [Obj(c)], repr);
      |es| == 3 && es[0].position == "1" && es[1].position == "9" && es[2].position == "3"
  {
    AcceptedItem(l, c, repr);
    NatToStringSmall();
    var es := Converted(l + [Obj(c)], repr);
    assert es[0] == es[..2][0] && es[1] == es[..2][1];
  }

  lemma OwnPosition(fields: seq<Member>, accepted: nat, p: string, repr: Json -> string)
    requires FirstPresent(fields, NameKeys).Some? && FirstPresent(fields, PointsKeys).Some?
    requires FirstPresent(fields, PositionKeys) == Some(Str(p))
    ensures ConvertItem(fields, accepted, repr).Some?
    ensures ConvertItem(fields, accepted, repr).value.position == Strip(p)
  {
    var name := FirstPresent(fields, NameKeys).value;
    var points := FirstPresent(fields, PointsKeys).value;
    assert Stringify(Str(p), repr) == p;
    assert ConvertItem(fields, accepted, repr)
        == Some(RankingEntry(Strip(p), Strip(Stringify(name, repr)), Strip(Stringify(points, repr))));
  }

  /** The accepted object's entry, after the earlier ones. */
  lemma Accepted(items: seq<Json>, fields: seq<Member>, repr: Json -> string)
    requires FirstPresent(fields, NameKeys).Some? && FirstPresent(fields, PointsKeys).Some?
    ensures Converted(items + [Obj(fields)], repr) == Converted(items, repr) + [ConvertItem(fields, |Converted(items, repr)|, repr).value]
  {
    assert (items + [Obj(fields)])[..|items|] == items;
  }

  /** `{name: "B", points: "3", position: "9"}` is accepted at position "9". */
  lemma PositionNine(b: seq<Member>)
    requires b == [Member("name", Str("B")), Member("points", Str("3")), Member("position", Str("9"))]
    ensures FirstPresent(b, NameKeys) == Some(Str("B"))
    ensures FirstPresent(b, PointsKeys) == Some(Str("3"))
    ensures FirstPresent(b, PositionKeys) == Some(Str("9"))
    ensures Strip("9") == "9"
  {
    assert b[1..] == [Member("points", Str("3")), Member("position", Str("9"))];
    assert b[1..][1..] == [Member("position", Str("9"))];
    assert Get(b[1..], "position") == Some(Str("9"));
    assert Get(b, "points") == Some(Str("3"));
    assert Get(b, "position") == Some(Str("9"));
    SingleCharStripped('9');
  }

  lemma NatToStringSmall()
    ensures NatToString(1) == "1" && NatToString(3) == "3"
  {
  }

  lemma SingleCharStripped(c: char)
    requires !IsSpace(c)
    ensures Strip([c]) == [c]
  {
    assert LeadingSpaces([c]) == 0;
    assert TrailingSpaces([c]) == 0;
  }

  /** An object `{name: n, points: p}` has a name and points and no
      position. */
  lemma NoPosition(fields: seq<Member>, n: Json, p: Json)
    requires fields == [Member("name", n), Member("points", p)]
    requires n != Null && n != Str("") && p != Null && p != Str("")
    ensures FirstPresent(fields, NameKeys) == Some(n)
    ensures FirstPresent(fields, PointsKeys) == Some(p)
    ensures FirstPresent(fields, PositionKeys).None?
  {
    assert Get(fields, "points") == Some(p);
    FirstPresentSpec(fields, PositionKeys);
    forall k | 0 <= k < |PositionKeys|
      ensures !Usable(Get(fields, PositionKeys[k]))
    {
      GetSpec(fields, PositionKeys[k]);
    }
  }
}
