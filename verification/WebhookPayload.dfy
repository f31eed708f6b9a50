/**
  contracts/webhook_payload.py: the payload boundary, which either rebuilds the containers it
  checks or checks them in place.  Values are trees; the keys of one mapping are distinct, so a
  dictionary filled in a loop lists them in the order of the loop.
 */
module WebhookPayload {
  import opened Wrappers

  datatype MappingKind = PlainDict | OtherMapping
  datatype SequenceKind = PlainList | OtherSequence

  /** A Python value.  Dates carry their own class; `Alien` is everything without a JSON form, `bytes` included. */
  datatype Py =
    | Null
    | Bool(b: bool)
    | Int(n: int)
    | Float(x: real)
    | Str(s: string)
    | Mapping(kind: MappingKind, entries: seq<Entry>)
    | Sequence(shape: SequenceKind, items: seq<Py>)
    | Moment(className: string, instant: int)
    | Alien(typeName: string)

  datatype Entry = Entry(key: Py, item: Py)

  datatype Segment = Field(name: string) | AnyItem | Item(index: nat)

  /** Where a defect lies below `WebhookData`. */
  type Path = seq<Segment>

  datatype Kind = Text | OptionalText | Object | ObjectList | Integer | Number | Truth | NumberList | Timestamp | Json | Undeclared

  datatype Defect =
    | NotAMapping
    | NonStringKey(path: Path, key: Py)
    | NonJson(path: Path, typeName: string)
    | MustBe(path: Path, expected: Kind)
    | NotDeclared(path: Path)
    | TooLargeForFloat

  datatype Result = Ok(value: Py) | Err(defect: Defect)

  function TypeName(v: Py): string
    requires v.Moment? || v.Alien?
  {
    if v.Moment? then v.className else v.typeName
  }

  function Width(v: Py): nat { if v.Mapping? then |v.entries| else if v.Sequence? then |v.items| else 0 }

  // ---- what is wrong with a value, in document order ----

  /** Every defect of `v`, in document order: nothing stops at the first one. */
  function Defects(v: Py, path: Path): seq<Defect>
    decreases v, Width(v) + 1
  {
    if v.Mapping? then EntryDefects(v, path, |v.entries|)
    else if v.Sequence? then ItemDefects(v, path, |v.items|)
    else if v.Moment? || v.Alien? then [NonJson(path, TypeName(v))]
    else []
  }

  /** Those of the first `n` entries. */
  function EntryDefects(v: Py, path: Path, n: nat): seq<Defect>
    requires v.Mapping? && n <= |v.entries|
    decreases v, n
  {
    if n == 0 then [] else EntryDefects(v, path, n - 1) + EntryDefect(v.entries[n - 1], path)
  }

  function EntryDefect(e: Entry, path: Path): seq<Defect> {
    if e.key.Str? then Defects(e.item, path + [Field(e.key.s)]) else [NonStringKey(path, e.key)]
  }

  function ItemDefects(v: Py, path: Path, n: nat): seq<Defect>
    requires v.Sequence? && n <= |v.items|
    decreases v, n
  {
    if n == 0 then [] else ItemDefects(v, path, n - 1) + Defects(v.items[n - 1], path + [AnyItem])
  }

  /** `v` with each container rebuilt as a plain dictionary or list. */
  function Rebuilt(v: Py): Py
    decreases v, Width(v) + 1
  {
    if v.Mapping? then Mapping(PlainDict, RebuiltEntries(v, |v.entries|))
    else if v.Sequence? then Sequence(PlainList, RebuiltItems(v, |v.items|))
    else v
  }

  function RebuiltEntries(v: Py, n: nat): seq<Entry>
    requires v.Mapping? && n <= |v.entries|
    decreases v, n
  {
    if n == 0 then [] else RebuiltEntries(v, n - 1) + [Entry(v.entries[n - 1].key, Rebuilt(v.entries[n - 1].item))]
  }

  function RebuiltItems(v: Py, n: nat): seq<Py>
    requires v.Sequence? && n <= |v.items|
    decreases v, n
  {
    if n == 0 then [] else RebuiltItems(v, n - 1) + [Rebuilt(v.items[n - 1])]
  }

  function Verdict(value: Py, defects: seq<Defect>): Result { if defects == [] then Ok(value) else Err(defects[0]) }

  lemma {:induction false} EntryDefectsStart(v: Py, path: Path, n: nat, m: nat)
    requires v.Mapping? && n <= m <= |v.entries|
    ensures EntryDefects(v, path, n) <= EntryDefects(v, path, m)
    decreases m
  {
    if n < m {
      EntryDefectsStart(v, path, n, m - 1);
    }
  }

  lemma NoEntries(v: Py, path: Path)
    requires v.Mapping?
    ensures EntryDefects(v, path, 0) == []
  {
  }

  /** When the first `n` entries are fine, the next one decides: it is fine too, or its first defect is the first of all. */
  lemma NextEntryDecides(v: Py, path: Path, n: nat)
    requires v.Mapping? && n < |v.entries| && EntryDefects(v, path, n) == []
    ensures var here := EntryDefect(v.entries[n], path);
            if here == [] then EntryDefects(v, path, n + 1) == []
            else EntryDefects(v, path, |v.entries|) != [] && EntryDefects(v, path, |v.entries|)[0] == here[0]
  {
    EntryDefectsStart(v, path, n + 1, |v.entries|);
  }

  lemma {:induction false} ItemDefectsStart(v: Py, path: Path, n: nat, m: nat)
    requires v.Sequence? && n <= m <= |v.items|
    ensures ItemDefects(v, path, n) <= ItemDefects(v, path, m)
    decreases m
  {
    if n < m {
      ItemDefectsStart(v, path, n, m - 1);
    }
  }

  /** `_copy_json_compatible` */
  method CopyJson(v: Py, path: Path) returns (r: Result)
    ensures r == Verdict(Rebuilt(v), Defects(v, path))
    decreases v, 1
  {
    if v.Mapping? {
      r := CopyMapping(v, path);
    } else if v.Sequence? {
      r := CopySequence(v, path);
    } else if v.Moment? || v.Alien? {
      r := Err(NonJson(path, TypeName(v)));
    } else {
      r := Ok(v);
    }
  }

  method CopyMapping(v: Py, path: Path) returns (r: Result)
    requires v.Mapping?
    ensures r == Verdict(Mapping(PlainDict, RebuiltEntries(v, |v.entries|)), EntryDefects(v, path, |v.entries|))
    decreases v, 0
  {
    hide Rebuilt, Defects;
    var copied: seq<Entry> := [];
    for i := 0 to |v.entries|
      invariant EntryDefects(v, path, i) == []
      invariant copied == RebuiltEntries(v, i)
    {
      var e := v.entries[i];
      NextEntryDecides(v, path, i);
      if !e.key.Str? {
        return Err(NonStringKey(path, e.key));
      }
      var item := CopyJson(e.item, path + [Field(e.key.s)]);
      if item.Err? {
        return item;
      }
      copied := copied + [Entry(e.key, item.value)];
    }
    return Ok(Mapping(PlainDict, copied));
  }

  method CopySequence(v: Py, path: Path) returns (r: Result)
    requires v.Sequence?
    ensures r == Verdict(Sequence(PlainList, RebuiltItems(v, |v.items|)), ItemDefects(v, path, |v.items|))
    decreases v, 0
  {
    hide Rebuilt, Defects;
    var copied: seq<Py> := [];
    for i := 0 to |v.items|
      invariant ItemDefects(v, path, i) == []
      invariant copied == RebuiltItems(v, i)
    {
      ItemDefectsStart(v, path, i + 1, |v.items|);
      var item := CopyJson(v.items[i], path + [AnyItem]);
      if item.Err? {
        return item;
      }
      copied := copied + [item.value];
    }
    return Ok(Sequence(PlainList, copied));
  }

  /** `_validate_json_compatible` */
  method ValidateJson(v: Py, path: Path) returns (r: Result)
    ensures r == Verdict(v, Defects(v, path))
    decreases v, 1
  {
    if v.Mapping? {
      r := ValidateMapping(v, path);
    } else if v.Sequence? {
      r := ValidateSequence(v, path);
    } else if v.Moment? || v.Alien? {
      r := Err(NonJson(path, TypeName(v)));
    } else {
      r := Ok(v);
    }
  }

  method ValidateMapping(v: Py, path: Path) returns (r: Result)
    requires v.Mapping?
    ensures r == Verdict(v, EntryDefects(v, path, |v.entries|))
    decreases v, 0
  {
    NoEntries(v, path);
    hide Defects, EntryDefects;
    for i := 0 to |v.entries|
      invariant EntryDefects(v, path, i) == []
    {
      var e := v.entries[i];
      NextEntryDecides(v, path, i);
      if !e.key.Str? {
        return Err(NonStringKey(path, e.key));
      }
      var item := ValidateJson(e.item, path + [Field(e.key.s)]);
      if item.Err? {
        return item;
      }
    }
    return Ok(v);
  }

  method ValidateSequence(v: Py, path: Path) returns (r: Result)
    requires v.Sequence?
    ensures r == Verdict(v, ItemDefects(v, path, |v.items|))
    decreases v, 0
  {
    hide Defects;
    for i := 0 to |v.items|
      invariant ItemDefects(v, path, i) == []
    {
      ItemDefectsStart(v, path, i + 1, |v.items|);
      var item := ValidateJson(v.items[i], path + [AnyItem]);
      if item.Err? {
        return item;
      }
    }
    return Ok(v);
  }

  // ---- the declared fields ----

  const TEXT_FIELDS: set<string> := {
    "source", "timestamp", "Type", "RuleName", "AlertName", "MetricName", "Namespace", "Level", "Severity", "event_type",
    "alert_id", "alert_name", "service", "summary", "msg_type", "action", "status", "gateway_session_key", "gateway_run_id",
    "engine", "first_trigger_time", "trigger_condition", "query_result", "_adapter"}
  const OBJECT_FIELDS: set<string> := {"headers", "parsed_data", "card", "labels", "annotations", "analysis_result", "_alert_identity"}

  function KindOf(key: string): Kind {
    if key in TEXT_FIELDS then Text
    else if key in {"client_ip"} then OptionalText
    else if key in OBJECT_FIELDS then Object
    else if key in {"Resources", "alerts"} then ObjectList
    else if key in {"webhook_event_id", "poll_attempts"} then Integer
    else if key in {"duration_seconds"} then Number
    else if key in {"_need_success_notify"} then Truth
    else if key in {"_embedding"} then NumberList
    else if key in {"created_at", "next_poll_at", "last_polled_at"} then Timestamp
    else if key in {"body", "event", "id", "raw"} then Json
    else Undeclared
  }

  /** The nearest double of an integer, unless there is none. */
  type ToDouble = int -> Option<real>

  /** `float(v)`, which raises on an integer out of range. */
  function AsFloat(v: Py, toDouble: ToDouble): Option<Py>
    requires v.Int? || v.Float? || v.Bool?
  {
    if v.Float? then Some(v) else
    var d := toDouble(if v.Int? then v.n else if v.b then 1 else 0);
    if d.Some? then Some(Float(d.value)) else None
  }

  predicate IsNumber(v: Py) { v.Int? || v.Float? || v.Bool? }

  predicate Numbers(v: Py) { v.Sequence? && v.shape.PlainList? && forall i :: 0 <= i < |v.items| ==> IsNumber(v.items[i]) }

  /** The first `n` items as floats. */
  function Floats(v: Py, toDouble: ToDouble, n: nat): Option<seq<Py>>
    requires Numbers(v) && n <= |v.items|
  {
    if n == 0 then Some([]) else
    var before :- Floats(v, toDouble, n - 1);
    var last :- AsFloat(v.items[n - 1], toDouble);
    Some(before + [last])
  }

  /** The members of a list of objects that are wrong, up to the `n`-th. */
  function ListDefects(v: Py, key: string, n: nat): seq<Defect>
    requires v.Sequence? && n <= |v.items|
  {
    if n == 0 then [] else
    var path := [Field(key), Item(n - 1)];
    ListDefects(v, key, n - 1) + if v.items[n - 1].Mapping? then Defects(v.items[n - 1], path) else [MustBe(path, Object)]
  }

  /** Everything wrong with one field, in document order. */
  function FieldDefects(key: string, v: Py, strict: bool, toDouble: ToDouble): seq<Defect> {
    var path := [Field(key)];
    var kind := KindOf(key);
    match kind
    case Text => if v.Str? then [] else [MustBe(path, kind)]
    case OptionalText => if v.Str? || v.Null? then [] else [MustBe(path, kind)]
    case Object => if v.Mapping? then Defects(v, path) else [MustBe(path, kind)]
    case ObjectList => if v.Sequence? && v.shape.PlainList? then ListDefects(v, key, |v.items|) else [MustBe(path, kind)]
    case Integer => if v.Int? then [] else [MustBe(path, kind)]
    case Number => if !IsNumber(v) || v.Bool? then [MustBe(path, kind)] else if AsFloat(v, toDouble).None? then [TooLargeForFloat] else []
    case Truth => if v.Bool? then [] else [MustBe(path, kind)]
    case NumberList => if !Numbers(v) then [MustBe(path, kind)] else if Floats(v, toDouble, |v.items|).None? then [TooLargeForFloat] else []
    case Timestamp => if v.Moment? then [] else Defects(v, path)
    case Json => Defects(v, path)
    case Undeclared => if strict then [NotDeclared(path)] else Defects(v, path)
  }

  function Rebuild(v: Py, copy: bool): Py { if copy then Rebuilt(v) else v }

  /** What a field without defects becomes. */
  function Kept(key: string, v: Py, copy: bool, toDouble: ToDouble): Py {
    match KindOf(key)
    case Number => if IsNumber(v) && AsFloat(v, toDouble).Some? then AsFloat(v, toDouble).value else v
    case NumberList =>
      if Numbers(v) && Floats(v, toDouble, |v.items|).Some? then Sequence(PlainList, Floats(v, toDouble, |v.items|).value) else v
    case Text | OptionalText | Integer | Truth => v
    case Object | ObjectList | Timestamp | Json | Undeclared => Rebuild(v, copy)
  }

  /** Everything wrong with the first `n` fields. */
  function BoundaryDefects(data: Py, strict: bool, toDouble: ToDouble, n: nat): seq<Defect>
    requires data.Mapping? && n <= |data.entries|
  {
    if n == 0 then [] else BoundaryDefects(data, strict, toDouble, n - 1) + BoundaryDefect(data.entries[n - 1], strict, toDouble)
  }

  function BoundaryDefect(e: Entry, strict: bool, toDouble: ToDouble): seq<Defect> {
    if e.key.Str? then FieldDefects(e.key.s, e.item, strict, toDouble) else [NonStringKey([], e.key)]
  }

  function KeptEntry(e: Entry, copy: bool, toDouble: ToDouble): Entry {
    if e.key.Str? then Entry(e.key, Kept(e.key.s, e.item, copy, toDouble)) else e
  }

  /** The first `n` fields, kept. */
  function KeptFields(data: Py, copy: bool, toDouble: ToDouble, n: nat): seq<Entry>
    requires data.Mapping? && n <= |data.entries|
  {
    if n == 0 then [] else KeptFields(data, copy, toDouble, n - 1) + [KeptEntry(data.entries[n - 1], copy, toDouble)]
  }

  /** The boundary's answer: the first defect in document order, or every field kept. */
  function Outcome(data: Py, strict: bool, copy: bool, toDouble: ToDouble): Result {
    if !data.Mapping? then Err(NotAMapping)
    else Verdict(Mapping(PlainDict, KeptFields(data, copy, toDouble, |data.entries|)), BoundaryDefects(data, strict, toDouble, |data.entries|))
  }

  method Transform(v: Py, path: Path, copy: bool) returns (r: Result)
    ensures r == Verdict(Rebuild(v, copy), Defects(v, path))
  {
    if copy {
      r := CopyJson(v, path);
    } else {
      r := ValidateJson(v, path);
    }
  }

  lemma {:induction false} ListDefectsStart(v: Py, key: string, n: nat, m: nat)
    requires v.Sequence? && n <= m <= |v.items|
    ensures ListDefects(v, key, n) <= ListDefects(v, key, m)
    decreases m
  {
    if n < m {
      ListDefectsStart(v, key, n, m - 1);
    }
  }

  lemma {:induction false} BoundaryDefectsStart(data: Py, strict: bool, toDouble: ToDouble, n: nat, m: nat)
    requires data.Mapping? && n <= m <= |data.entries|
    ensures BoundaryDefects(data, strict, toDouble, n) <= BoundaryDefects(data, strict, toDouble, m)
    decreases m
  {
    hide BoundaryDefect;
    if n < m {
      BoundaryDefectsStart(data, strict, toDouble, n, m - 1);
    }
  }

  lemma NextFieldDecides(data: Py, strict: bool, toDouble: ToDouble, n: nat)
    requires data.Mapping? && n < |data.entries| && BoundaryDefects(data, strict, toDouble, n) == []
    ensures var here := BoundaryDefect(data.entries[n], strict, toDouble);
            var all := BoundaryDefects(data, strict, toDouble, |data.entries|);
            if here == [] then BoundaryDefects(data, strict, toDouble, n + 1) == [] else all != [] && all[0] == here[0]
  {
    hide BoundaryDefect;
    BoundaryDefectsStart(data, strict, toDouble, n + 1, |data.entries|);
  }

  /** `_copy_list_of_mappings` */
  method CopyListOfMappings(v: Py, key: string, copy: bool) returns (r: Result)
    ensures r == if v.Sequence? && v.shape.PlainList? then Verdict(Rebuild(v, copy), ListDefects(v, key, |v.items|))
                 else Err(MustBe([Field(key)], ObjectList))
  {
    if !v.Sequence? || !v.shape.PlainList? {
      return Err(MustBe([Field(key)], ObjectList));
    }
    var copied: seq<Py> := [];
    for i := 0 to |v.items|
      invariant ListDefects(v, key, i) == []
      invariant copied == if copy then RebuiltItems(v, i) else v.items[..i]
    {
      ListDefectsStart(v, key, i + 1, |v.items|);
      var path := [Field(key), Item(i)];
      if !v.items[i].Mapping? {
        return Err(MustBe(path, Object));
      }
      var item := Transform(v.items[i], path, copy);
      if item.Err? {
        return item;
      }
      copied := copied + [item.value];
    }
    return Ok(if copy then Sequence(PlainList, copied) else v);
  }

  /** One round of the loop of `webhook_data_from_mapping`. */
  method KeepField(key: string, v: Py, strict: bool, copy: bool, toDouble: ToDouble) returns (r: Result)
    ensures r == Verdict(Kept(key, v, copy, toDouble), FieldDefects(key, v, strict, toDouble))
  {
    var path := [Field(key)];
    var kind := KindOf(key);
    match kind
    case Text =>
      return if v.Str? then Ok(v) else Err(MustBe(path, kind));
    case OptionalText =>
      return if !v.Null? && !v.Str? then Err(MustBe(path, kind)) else Ok(v);
    case Object =>
      if !v.Mapping? {
        return Err(MustBe(path, kind));
      }
      r := Transform(v, path, copy);
    case ObjectList =>
      r := CopyListOfMappings(v, key, copy);
    case Integer =>
      return if v.Int? then Ok(v) else Err(MustBe(path, kind));
    case Number =>
      if !IsNumber(v) || v.Bool? {
        return Err(MustBe(path, kind));
      }
      var f := AsFloat(v, toDouble);
      return if f.Some? then Ok(f.value) else Err(TooLargeForFloat);
    case Truth =>
      return if v.Bool? then Ok(v) else Err(MustBe(path, kind));
    case NumberList =>
      r := KeepNumbers(v, path, toDouble);
    case Timestamp =>
      if v.Moment? {
        return Ok(v);
      }
      r := Transform(v, path, copy);
    case Json =>
      r := Transform(v, path, copy);
    case Undeclared =>
      if strict {
        return Err(NotDeclared(path));
      }
      r := Transform(v, path, copy);
  }

  lemma {:induction false} FloatsStop(v: Py, toDouble: ToDouble, n: nat, m: nat)
    requires Numbers(v) && n <= m <= |v.items| && Floats(v, toDouble, n).None?
    ensures Floats(v, toDouble, m).None?
    decreases m
  {
    if n < m {
      FloatsStop(v, toDouble, n, m - 1);
    }
  }

  method KeepNumbers(v: Py, path: Path, toDouble: ToDouble) returns (r: Result)
    ensures r == if !Numbers(v) then Err(MustBe(path, NumberList))
                 else var floats := Floats(v, toDouble, |v.items|);
                      if floats.Some? then Ok(Sequence(PlainList, floats.value)) else Err(TooLargeForFloat)
  {
    if !Numbers(v) {
      return Err(MustBe(path, NumberList));
    }
    var floats: seq<Py> := [];
    for i := 0 to |v.items|
      invariant Floats(v, toDouble, i) == Some(floats)
    {
      var f := AsFloat(v.items[i], toDouble);
      if f.None? {
        FloatsStop(v, toDouble, i + 1, |v.items|);
        return Err(TooLargeForFloat);
      }
      floats := floats + [f.value];
    }
    return Ok(Sequence(PlainList, floats));
  }

  /** `webhook_data_from_mapping` */
  method WebhookDataFromMapping(data: Py, strict: bool, copy: bool, toDouble: ToDouble) returns (r: Result)
    ensures r == Outcome(data, strict, copy, toDouble)
  {
    hide FieldDefects, Kept;
    if !data.Mapping? {
      return Err(NotAMapping);
    }
    var normalized: seq<Entry> := [];
    for i := 0 to |data.entries|
      invariant BoundaryDefects(data, strict, toDouble, i) == []
      invariant normalized == KeptFields(data, copy, toDouble, i)
    {
      var e := data.entries[i];
      NextFieldDecides(data, strict, toDouble, i);
      if !e.key.Str? {
        return Err(NonStringKey([], e.key));
      }
      var kept := KeepField(e.key.s, e.item, strict, copy, toDouble);
      if kept.Err? {
        return kept;
      }
      normalized := normalized + [Entry(e.key, kept.value)];
    }
    return Ok(Mapping(PlainDict, normalized));
  }

  // ---- what a rebuilt value is ----

  /** A value without the classes of its containers: what it means as JSON. */
  datatype Meaning = Leaf(v: Py) | Obj(fields: seq<(Py, Meaning)>) | Arr(items: seq<Meaning>)

  function MeaningOf(v: Py): Meaning
    decreases v, Width(v) + 1
  {
    if v.Mapping? then Obj(seq(|v.entries|, i requires 0 <= i < |v.entries| => (v.entries[i].key, MeaningOf(v.entries[i].item))))
    else if v.Sequence? then Arr(seq(|v.items|, i requires 0 <= i < |v.items| => MeaningOf(v.items[i])))
    else Leaf(v)
  }

  /** Plain dictionaries and lists all the way down. */
  predicate Plain(v: Py) {
    && (v.Mapping? ==> v.kind.PlainDict? && forall i :: 0 <= i < |v.entries| ==> Plain(v.entries[i].item))
    && (v.Sequence? ==> v.shape.PlainList? && forall i :: 0 <= i < |v.items| ==> Plain(v.items[i]))
  }

  lemma {:induction false} RebuiltEntryAt(v: Py, n: nat)
    requires v.Mapping? && n <= |v.entries|
    ensures |RebuiltEntries(v, n)| == n
    ensures forall i :: 0 <= i < n ==> RebuiltEntries(v, n)[i] == Entry(v.entries[i].key, Rebuilt(v.entries[i].item))
  {
    hide Rebuilt;
    if n > 0 {
      RebuiltEntryAt(v, n - 1);
    }
  }

  lemma {:induction false} RebuiltItemAt(v: Py, n: nat)
    requires v.Sequence? && n <= |v.items|
    ensures |RebuiltItems(v, n)| == n
    ensures forall i :: 0 <= i < n ==> RebuiltItems(v, n)[i] == Rebuilt(v.items[i])
  {
    hide Rebuilt;
    if n > 0 {
      RebuiltItemAt(v, n - 1);
    }
  }

  /** Rebuilding keeps the meaning, leaves plain containers only, and changes a value exactly when it held others. */
  lemma {:induction false} RebuiltMeansTheSame(v: Py)
    ensures MeaningOf(Rebuilt(v)) == MeaningOf(v) && Plain(Rebuilt(v))
    ensures Rebuilt(v) == v <==> Plain(v)
    decreases v
  {
    hide RebuiltEntries, RebuiltItems;
    if v.Mapping? {
      RebuiltEntryAt(v, |v.entries|);
      forall i | 0 <= i < |v.entries|
        ensures MeaningOf(Rebuilt(v.entries[i].item)) == MeaningOf(v.entries[i].item) && Plain(Rebuilt(v.entries[i].item))
        ensures Rebuilt(v.entries[i].item) == v.entries[i].item <==> Plain(v.entries[i].item)
      {
        RebuiltMeansTheSame(v.entries[i].item);
      }
    } else if v.Sequence? {
      RebuiltItemAt(v, |v.items|);
      forall i | 0 <= i < |v.items|
        ensures MeaningOf(Rebuilt(v.items[i])) == MeaningOf(v.items[i]) && Plain(Rebuilt(v.items[i]))
        ensures Rebuilt(v.items[i]) == v.items[i] <==> Plain(v.items[i])
      {
        RebuiltMeansTheSame(v.items[i]);
      }
    }
  }

  // ---- rebuilding neither adds nor removes a defect ----

  lemma {:induction false} RebuiltSameDefects(v: Py, path: Path)
    ensures Defects(Rebuilt(v), path) == Defects(v, path)
    decreases v, Width(v) + 1
  {
    if v.Mapping? {
      RebuiltSameEntryDefects(v, path, |v.entries|);
    } else if v.Sequence? {
      RebuiltSameItemDefects(v, path, |v.items|);
    }
  }

  lemma {:induction false} RebuiltSameEntryDefects(v: Py, path: Path, n: nat)
    requires v.Mapping? && n <= |v.entries|
    ensures |Rebuilt(v).entries| == |v.entries| && EntryDefects(Rebuilt(v), path, n) == EntryDefects(v, path, n)
    decreases v, n
  {
    RebuiltEntryAt(v, |v.entries|);
    hide RebuiltEntries, Defects;
    if n > 0 {
      RebuiltSameEntryDefects(v, path, n - 1);
      var e := v.entries[n - 1];
      if e.key.Str? {
        RebuiltSameDefects(e.item, path + [Field(e.key.s)]);
      }
    }
  }

  lemma {:induction false} RebuiltSameItemDefects(v: Py, path: Path, n: nat)
    requires v.Sequence? && n <= |v.items|
    ensures |Rebuilt(v).items| == |v.items| && ItemDefects(Rebuilt(v), path, n) == ItemDefects(v, path, n)
    decreases v, n
  {
    RebuiltItemAt(v, |v.items|);
    hide RebuiltItems, Defects;
    if n > 0 {
      RebuiltSameItemDefects(v, path, n - 1);
      RebuiltSameDefects(v.items[n - 1], path + [AnyItem]);
    }
  }

  lemma {:induction false} RebuiltSameListDefects(v: Py, key: string, n: nat)
    requires v.Sequence? && n <= |v.items|
    ensures |Rebuilt(v).items| == |v.items| && ListDefects(Rebuilt(v), key, n) == ListDefects(v, key, n)
  {
    RebuiltItemAt(v, |v.items|);
    hide RebuiltItems, Defects;
    if n > 0 {
      RebuiltSameListDefects(v, key, n - 1);
      RebuiltSameDefects(v.items[n - 1], [Field(key), Item(n - 1)]);
    }
  }

  lemma {:induction false} FloatsAgain(v: Py, toDouble: ToDouble, n: nat)
    requires Numbers(v) && n <= |v.items| && Floats(v, toDouble, n).Some?
    ensures var floats := Floats(v, toDouble, n).value;
            |floats| == n && forall i :: 0 <= i < n ==> floats[i].Float?
  {
    if n > 0 {
      FloatsAgain(v, toDouble, n - 1);
    }
  }

  lemma {:induction false} FloatsStay(v: Py, toDouble: ToDouble, n: nat)
    requires v.Sequence? && v.shape.PlainList? && n <= |v.items| && forall i :: 0 <= i < |v.items| ==> v.items[i].Float?
    ensures Floats(v, toDouble, n) == Some(v.items[..n])
  {
    if n > 0 {
      FloatsStay(v, toDouble, n - 1);
      assert v.items[..n - 1] + [v.items[n - 1]] == v.items[..n];
    }
  }

  // ---- one field ----

  lemma TwinFields(key: string, v: Py, strict: bool, toDouble: ToDouble)
    requires FieldDefects(key, v, strict, toDouble) == []
    ensures var c, w := Kept(key, v, true, toDouble), Kept(key, v, false, toDouble);
            MeaningOf(c) == MeaningOf(w) && (c == w <==> Plain(v))
  {
    hide KindOf, Defects, ListDefects, Rebuilt;
    RebuiltMeansTheSame(v);
  }

  lemma KeptSameDefects(key: string, v: Py, strict: bool, copy: bool, toDouble: ToDouble)
    requires FieldDefects(key, v, strict, toDouble) == []
    ensures FieldDefects(key, Kept(key, v, copy, toDouble), strict, toDouble) == []
  {
    RebuiltSameDefects(v, [Field(key)]);
    if v.Sequence? {
      RebuiltSameListDefects(v, key, |v.items|);
    }
    hide KindOf, Defects, ListDefects;
    if KindOf(key).NumberList? {
      FloatsAgain(v, toDouble, |v.items|);
      FloatsStay(Kept(key, v, copy, toDouble), toDouble, |v.items|);
    }
  }

  lemma KeptAgain(key: string, v: Py, strict: bool, copy: bool, again: bool, toDouble: ToDouble)
    requires FieldDefects(key, v, strict, toDouble) == []
    ensures var k := Kept(key, v, copy, toDouble);
            var k2 := Kept(key, k, again, toDouble);
            MeaningOf(k2) == MeaningOf(k) && (k2 == k <==> !again || copy || Plain(v))
  {
    RebuiltMeansTheSame(v);
    RebuiltMeansTheSame(Rebuilt(v));
    hide KindOf, Defects, ListDefects, Rebuilt, MeaningOf;
    if KindOf(key).NumberList? {
      FloatsAgain(v, toDouble, |v.items|);
      var k := Kept(key, v, copy, toDouble);
      FloatsStay(k, toDouble, |v.items|);
      assert k.items[..|v.items|] == k.items && Kept(key, k, again, toDouble) == k;
    }
  }

  // ---- the whole boundary ----

  lemma {:induction false} KeptFieldAt(data: Py, copy: bool, toDouble: ToDouble, n: nat)
    requires data.Mapping? && n <= |data.entries|
    ensures |KeptFields(data, copy, toDouble, n)| == n
    ensures forall i :: 0 <= i < n ==> KeptFields(data, copy, toDouble, n)[i] == KeptEntry(data.entries[i], copy, toDouble)
  {
    hide KeptEntry;
    if n > 0 {
      KeptFieldAt(data, copy, toDouble, n - 1);
    }
  }

  lemma {:induction false} NoDefectAt(data: Py, strict: bool, toDouble: ToDouble, n: nat)
    requires data.Mapping? && n <= |data.entries|
    ensures BoundaryDefects(data, strict, toDouble, n) == [] <==> forall i :: 0 <= i < n ==> BoundaryDefect(data.entries[i], strict, toDouble) == []
  {
    hide BoundaryDefect;
    if n > 0 {
      NoDefectAt(data, strict, toDouble, n - 1);
    }
  }

  /** The twins fail together, on the same first defect at the same path; otherwise their results mean the same, and are the
      same value exactly when every container handed in is a plain dictionary or list. */
  lemma TwinsAgree(data: Py, strict: bool, toDouble: ToDouble)
    ensures var c, w := Outcome(data, strict, true, toDouble), Outcome(data, strict, false, toDouble);
            && (c.Err? || w.Err? ==> c == w)
            && (c.Ok? ==> MeaningOf(c.value) == MeaningOf(w.value)
                          && (c == w <==> forall i :: 0 <= i < |data.entries| ==> Plain(data.entries[i].item)))
  {
    hide Kept, FieldDefects, KeptFields, BoundaryDefects;
    if data.Mapping? {
      var n := |data.entries|;
      KeptFieldAt(data, true, toDouble, n);
      KeptFieldAt(data, false, toDouble, n);
      NoDefectAt(data, strict, toDouble, n);
      var c, w := KeptFields(data, true, toDouble, n), KeptFields(data, false, toDouble, n);
      if BoundaryDefects(data, strict, toDouble, n) == [] {
        forall i | 0 <= i < n
          ensures c[i].key == w[i].key && MeaningOf(c[i].item) == MeaningOf(w[i].item) && (c[i] == w[i] <==> Plain(data.entries[i].item))
        {
          assert BoundaryDefect(data.entries[i], strict, toDouble) == [];
          TwinFields(data.entries[i].key.s, data.entries[i].item, strict, toDouble);
        }
      }
    }
  }

  /** A result passes the boundary again with its meaning kept, and comes back as it is unless containers that were
      only checked, some not plain, are now rebuilt. */
  lemma RevalidationKeeps(data: Py, strict: bool, copy: bool, again: bool, toDouble: ToDouble)
    requires Outcome(data, strict, copy, toDouble).Ok?
    ensures var first := Outcome(data, strict, copy, toDouble);
            var second := Outcome(first.value, strict, again, toDouble);
            && second.Ok? && MeaningOf(second.value) == MeaningOf(first.value)
            && (second == first <==> !again || copy || forall i :: 0 <= i < |data.entries| ==> Plain(data.entries[i].item))
  {
    hide Kept, FieldDefects, KeptFields, BoundaryDefects;
    var n := |data.entries|;
    var first := Outcome(data, strict, copy, toDouble).value;
    KeptFieldAt(data, copy, toDouble, n);
    NoDefectAt(data, strict, toDouble, n);
    forall i | 0 <= i < n
      ensures BoundaryDefect(first.entries[i], strict, toDouble) == []
    {
      assert BoundaryDefect(data.entries[i], strict, toDouble) == [];
      KeptSameDefects(data.entries[i].key.s, data.entries[i].item, strict, copy, toDouble);
    }
    NoDefectAt(first, strict, toDouble, n);
    KeptFieldAt(first, again, toDouble, n);
    var second := KeptFields(first, again, toDouble, n);
    forall i | 0 <= i < n
      ensures second[i].key == first.entries[i].key && MeaningOf(second[i].item) == MeaningOf(first.entries[i].item)
      ensures second[i] == first.entries[i] <==> !again || copy || Plain(data.entries[i].item)
    {
      assert BoundaryDefect(data.entries[i], strict, toDouble) == [];
      KeptAgain(data.entries[i].key.s, data.entries[i].item, strict, copy, again, toDouble);
    }
  }

  /** A tuple as the body: copied it is a list, checked it stays a tuple. */
  lemma TupleSplitsTwins(toDouble: ToDouble)
    ensures var data := Mapping(PlainDict, [Entry(Str("body"), Sequence(OtherSequence, []))]);
            var c, w := Outcome(data, true, true, toDouble), Outcome(data, true, false, toDouble);
            c.Ok? && w.Ok? && c != w
  {
    var data := Mapping(PlainDict, [Entry(Str("body"), Sequence(OtherSequence, []))]);
    BodyIsJson();
    hide KindOf;
    assert FieldDefects("body", data.entries[0].item, true, toDouble) == [];
    NoDefectAt(data, true, toDouble, 1);
    assert !Plain(data.entries[0].item);
    hide Outcome;
    assert Outcome(data, true, true, toDouble).Ok? by { OutcomeOk(data, true, true, toDouble); }
    TwinsAgree(data, true, toDouble);
  }

  lemma OutcomeOk(data: Py, strict: bool, copy: bool, toDouble: ToDouble)
    requires data.Mapping? && BoundaryDefects(data, strict, toDouble, |data.entries|) == []
    ensures Outcome(data, strict, copy, toDouble).Ok?
  {
  }

  lemma BodyIsJson()
    ensures KindOf("body") == Json
  {
    assert |"body"| == 4 && "body"[0] == 'b';
  }

  // ---- what is accepted, and what is reported ----------------------------------------------------------

  /** JSON all the way down: string keys, and nothing without a JSON form. */
  predicate JsonCompatible(v: Py) {
    && !v.Moment? && !v.Alien?
    && (v.Mapping? ==> forall i :: 0 <= i < |v.entries| ==> v.entries[i].key.Str? && JsonCompatible(v.entries[i].item))
    && (v.Sequence? ==> forall i :: 0 <= i < |v.items| ==> JsonCompatible(v.items[i]))
  }

  lemma {:induction false} NoDefectsIff(v: Py, path: Path)
    ensures Defects(v, path) == [] <==> JsonCompatible(v)
    decreases v, Width(v) + 1
  {
    if v.Mapping? {
      NoEntryDefectsIff(v, path, |v.entries|);
    } else if v.Sequence? {
      NoItemDefectsIff(v, path, |v.items|);
    }
  }

  lemma {:induction false} NoEntryDefectsIff(v: Py, path: Path, n: nat)
    requires v.Mapping? && n <= |v.entries|
    ensures EntryDefects(v, path, n) == [] <==> forall i :: 0 <= i < n ==> v.entries[i].key.Str? && JsonCompatible(v.entries[i].item)
    decreases v, n
  {
    hide Defects, JsonCompatible;
    if n > 0 {
      NoEntryDefectsIff(v, path, n - 1);
      var e := v.entries[n - 1];
      if e.key.Str? {
        NoDefectsIff(e.item, path + [Field(e.key.s)]);
      }
    }
  }

  lemma {:induction false} NoItemDefectsIff(v: Py, path: Path, n: nat)
    requires v.Sequence? && n <= |v.items|
    ensures ItemDefects(v, path, n) == [] <==> forall i :: 0 <= i < n ==> JsonCompatible(v.items[i])
    decreases v, n
  {
    hide Defects, JsonCompatible;
    if n > 0 {
      NoItemDefectsIff(v, path, n - 1);
      NoDefectsIff(v.items[n - 1], path + [AnyItem]);
    }
  }

  lemma {:induction false} NoListDefectsIff(v: Py, key: string, n: nat)
    requires v.Sequence? && n <= |v.items|
    ensures ListDefects(v, key, n) == [] <==> forall i :: 0 <= i < n ==> v.items[i].Mapping? && JsonCompatible(v.items[i])
  {
    hide Defects, JsonCompatible;
    if n > 0 {
      NoListDefectsIff(v, key, n - 1);
      NoDefectsIff(v.items[n - 1], [Field(key), Item(n - 1)]);
    }
  }

  predicate HasDouble(v: Py, toDouble: ToDouble) {
    v.Float? || (v.Int? && toDouble(v.n).Some?) || (v.Bool? && toDouble(if v.b then 1 else 0).Some?)
  }

  lemma {:induction false} FloatsIff(v: Py, toDouble: ToDouble, n: nat)
    requires Numbers(v) && n <= |v.items|
    ensures Floats(v, toDouble, n).Some? <==> forall i :: 0 <= i < n ==> HasDouble(v.items[i], toDouble)
  {
    if n > 0 {
      FloatsIff(v, toDouble, n - 1);
    }
  }

  /** What each declared kind of field takes. */
  predicate Acceptable(key: string, v: Py, strict: bool, toDouble: ToDouble) {
    match KindOf(key)
    case Text => v.Str?
    case OptionalText => v.Str? || v.Null?
    case Object => v.Mapping? && JsonCompatible(v)
    case ObjectList => v.Sequence? && v.shape.PlainList? && forall i :: 0 <= i < |v.items| ==> v.items[i].Mapping? && JsonCompatible(v.items[i])
    case Integer => v.Int?
    case Number => !v.Bool? && HasDouble(v, toDouble)
    case Truth => v.Bool?
    case NumberList => v.Sequence? && v.shape.PlainList? && forall i :: 0 <= i < |v.items| ==> HasDouble(v.items[i], toDouble)
    case Timestamp => v.Moment? || JsonCompatible(v)
    case Json => JsonCompatible(v)
    case Undeclared => !strict && JsonCompatible(v)
  }

  lemma FieldAcceptedIff(key: string, v: Py, strict: bool, toDouble: ToDouble)
    ensures FieldDefects(key, v, strict, toDouble) == [] <==> Acceptable(key, v, strict, toDouble)
  {
    hide KindOf, Defects, JsonCompatible, ListDefects, Floats, Numbers;
    NoDefectsIff(v, [Field(key)]);
    if v.Sequence? {
      NoListDefectsIff(v, key, |v.items|);
    }
    NumbersAcceptedIff(v, toDouble);
  }

  lemma NumbersAcceptedIff(v: Py, toDouble: ToDouble)
    ensures Numbers(v) && Floats(v, toDouble, |v.items|).Some? <==>
            v.Sequence? && v.shape.PlainList? && forall i :: 0 <= i < |v.items| ==> HasDouble(v.items[i], toDouble)
  {
    hide Floats;
    if Numbers(v) {
      FloatsIff(v, toDouble, |v.items|);
    } else if v.Sequence? && v.shape.PlainList? {
      var i :| 0 <= i < |v.items| && !IsNumber(v.items[i]);
      assert !HasDouble(v.items[i], toDouble);
    }
  }

  /** The boundary accepts exactly the mappings with string keys whose every field is acceptable for its kind. */
  lemma AcceptedIff(data: Py, strict: bool, copy: bool, toDouble: ToDouble)
    ensures Outcome(data, strict, copy, toDouble).Ok? <==>
            data.Mapping? && forall i :: 0 <= i < |data.entries| ==>
              data.entries[i].key.Str? && Acceptable(data.entries[i].key.s, data.entries[i].item, strict, toDouble)
  {
    hide FieldDefects, Acceptable, Kept;
    if data.Mapping? {
      NoDefectAt(data, strict, toDouble, |data.entries|);
      forall i | 0 <= i < |data.entries| && data.entries[i].key.Str?
        ensures FieldDefects(data.entries[i].key.s, data.entries[i].item, strict, toDouble) == [] <==>
                Acceptable(data.entries[i].key.s, data.entries[i].item, strict, toDouble)
      {
        FieldAcceptedIff(data.entries[i].key.s, data.entries[i].item, strict, toDouble);
      }
    }
  }

  /** One field of each declared kind, and a name that is not declared. */
  lemma KindsOfFields()
    ensures KindOf("source") == Text && KindOf("client_ip") == OptionalText && KindOf("labels") == Object
  {
  }

  lemma KindsOfOtherFields()
    ensures KindOf("alerts") == ObjectList && KindOf("poll_attempts") == Integer && KindOf("duration_seconds") == Number
    ensures KindOf("created_at") == Timestamp && KindOf("raw") == Json && KindOf("x") == Undeclared
  {
  }

  /** `to` is the double that stands for the number `from`. */
  predicate SameNumber(from: Py, to: Py, toDouble: ToDouble) {
    if from.Float? then to == from
    else to.Float? && Some(to.x) == toDouble(if from.Int? then from.n else if from.Bool? && from.b then 1 else 0)
  }

  lemma {:induction false} FloatsAreDoubles(v: Py, toDouble: ToDouble, n: nat)
    requires Numbers(v) && n <= |v.items| && Floats(v, toDouble, n).Some?
    ensures var floats := Floats(v, toDouble, n).value;
            |floats| == n && forall i :: 0 <= i < n ==> SameNumber(v.items[i], floats[i], toDouble)
  {
    if n > 0 {
      FloatsAreDoubles(v, toDouble, n - 1);
    }
  }

  /** What becomes of one accepted field. */
  predicate KeepsField(key: string, from: Py, to: Py, copy: bool, toDouble: ToDouble) {
    if KindOf(key).Number? then SameNumber(from, to, toDouble)
    else if KindOf(key).NumberList? then
      from.Sequence? && to.Sequence? && |to.items| == |from.items| && forall i :: 0 <= i < |to.items| ==> SameNumber(from.items[i], to.items[i], toDouble)
    else MeaningOf(to) == MeaningOf(from) && (if copy then Plain(to) else to == from)
  }

  lemma KeptKeeps(key: string, v: Py, strict: bool, copy: bool, toDouble: ToDouble)
    requires FieldDefects(key, v, strict, toDouble) == []
    ensures KeepsField(key, v, Kept(key, v, copy, toDouble), copy, toDouble)
  {
    RebuiltMeansTheSame(v);
    hide KindOf, Defects, ListDefects, Rebuilt, MeaningOf;
    if KindOf(key).NumberList? {
      FloatsAreDoubles(v, toDouble, |v.items|);
    }
  }

  /** A result has the keys of the input in their order; each field means what it meant, numbers as their doubles. */
  lemma BoundaryKeepsInput(data: Py, strict: bool, copy: bool, toDouble: ToDouble)
    requires Outcome(data, strict, copy, toDouble).Ok?
    ensures var r := Outcome(data, strict, copy, toDouble).value;
            && r.Mapping? && r.kind.PlainDict? && |r.entries| == |data.entries|
            && forall i :: 0 <= i < |r.entries| ==>
                 && data.entries[i].key.Str? && r.entries[i].key == data.entries[i].key
                 && KeepsField(data.entries[i].key.s, data.entries[i].item, r.entries[i].item, copy, toDouble)
  {
    hide Kept, FieldDefects, KeptFields, BoundaryDefects, KeepsField;
    var n := |data.entries|;
    KeptFieldAt(data, copy, toDouble, n);
    NoDefectAt(data, strict, toDouble, n);
    var kept := KeptFields(data, copy, toDouble, n);
    forall i | 0 <= i < n
      ensures data.entries[i].key.Str? && kept[i].key == data.entries[i].key
      ensures KeepsField(data.entries[i].key.s, data.entries[i].item, kept[i].item, copy, toDouble)
    {
      assert BoundaryDefect(data.entries[i], strict, toDouble) == [];
      KeptKeeps(data.entries[i].key.s, data.entries[i].item, strict, copy, toDouble);
    }
  }

  /** `path` leads from `v` to `u`. */
  predicate LeadsTo(v: Py, path: Path, u: Py) {
    if path == [] then u == v
    else
      match path[0]
      case Field(name) => v.Mapping? && exists i :: 0 <= i < |v.entries| && v.entries[i].key == Str(name) && LeadsTo(v.entries[i].item, path[1..], u)
      case AnyItem => v.Sequence? && exists i :: 0 <= i < |v.items| && LeadsTo(v.items[i], path[1..], u)
      case Item(k) => false
  }

  /** The defect is there: behind `path`, its own path leads to what it complains of. */
  ghost predicate Genuine(v: Py, path: Path, d: Defect) {
    match d
    case NonJson(p, name) => path <= p && exists u :: LeadsTo(v, p[|path|..], u) && (u.Moment? || u.Alien?) && TypeName(u) == name
    case NonStringKey(p, key) =>
      path <= p && !key.Str? && exists u :: LeadsTo(v, p[|path|..], u) && u.Mapping? && exists i :: 0 <= i < |u.entries| && u.entries[i].key == key
    case _ => false
  }

  lemma GenuineBelow(v: Py, path: Path, segment: Segment, item: Py, d: Defect)
    requires Genuine(item, path + [segment], d)
    requires (segment.Field? && v.Mapping? && exists i :: 0 <= i < |v.entries| && v.entries[i] == Entry(Str(segment.name), item))
             || (segment.AnyItem? && v.Sequence? && item in v.items)
    ensures Genuine(v, path, d)
  {
    var p := d.path;
    var below := p[|path + [segment]|..];
    assert p[|path|..] == [segment] + below;
    var u :| LeadsTo(item, below, u) && (if d.NonJson? then (u.Moment? || u.Alien?) && TypeName(u) == d.typeName
                                         else u.Mapping? && exists i :: 0 <= i < |u.entries| && u.entries[i].key == d.key);
    assert LeadsTo(v, p[|path|..], u) by {
      assert p[|path|..][1..] == below;
    }
  }

  /** Every defect reported for a value is in it, at the path reported. */
  lemma {:induction false} DefectsAreGenuine(v: Py, path: Path)
    ensures forall d :: d in Defects(v, path) ==> Genuine(v, path, d)
    decreases v, Width(v) + 1
  {
    if v.Mapping? {
      EntryDefectsAreGenuine(v, path, |v.entries|);
    } else if v.Sequence? {
      ItemDefectsAreGenuine(v, path, |v.items|);
    } else if v.Moment? || v.Alien? {
      assert path[|path|..] == [];
      assert LeadsTo(v, [], v);
    }
  }

  lemma {:induction false} EntryDefectsAreGenuine(v: Py, path: Path, n: nat)
    requires v.Mapping? && n <= |v.entries|
    ensures forall d :: d in EntryDefects(v, path, n) ==> Genuine(v, path, d)
    decreases v, n
  {
    hide Defects, Genuine;
    if n > 0 {
      EntryDefectsAreGenuine(v, path, n - 1);
      var e := v.entries[n - 1];
      if e.key.Str? {
        DefectsAreGenuine(e.item, path + [Field(e.key.s)]);
        forall d | d in Defects(e.item, path + [Field(e.key.s)]) ensures Genuine(v, path, d) {
          GenuineBelow(v, path, Field(e.key.s), e.item, d);
        }
      } else {
        KeyIsGenuine(v, path, n - 1);
      }
    }
  }

  lemma KeyIsGenuine(v: Py, path: Path, i: nat)
    requires v.Mapping? && i < |v.entries| && !v.entries[i].key.Str?
    ensures Genuine(v, path, NonStringKey(path, v.entries[i].key))
  {
    assert path[|path|..] == [];
    assert LeadsTo(v, [], v);
  }

  lemma {:induction false} ItemDefectsAreGenuine(v: Py, path: Path, n: nat)
    requires v.Sequence? && n <= |v.items|
    ensures forall d :: d in ItemDefects(v, path, n) ==> Genuine(v, path, d)
    decreases v, n
  {
    hide Defects, Genuine;
    if n > 0 {
      ItemDefectsAreGenuine(v, path, n - 1);
      DefectsAreGenuine(v.items[n - 1], path + [AnyItem]);
      forall d | d in Defects(v.items[n - 1], path + [AnyItem]) ensures Genuine(v, path, d) {
        GenuineBelow(v, path, AnyItem, v.items[n - 1], d);
      }
    }
  }

  /** A defect of one field: of the wrong kind, with an item that is no object, not declared, too large, or below the field. */
  ghost predicate GenuineInField(key: string, v: Py, strict: bool, toDouble: ToDouble, d: Defect) {
    || (d == MustBe([Field(key)], KindOf(key)) && !Acceptable(key, v, strict, toDouble))
    || (KindOf(key).ObjectList? && v.Sequence? && exists i :: 0 <= i < |v.items| && !v.items[i].Mapping? && d == MustBe([Field(key), Item(i)], Object))
    || (KindOf(key).ObjectList? && v.Sequence? && exists i :: 0 <= i < |v.items| && Genuine(v.items[i], [Field(key), Item(i)], d))
    || (d == NotDeclared([Field(key)]) && KindOf(key).Undeclared? && strict)
    || (d == TooLargeForFloat && !Acceptable(key, v, strict, toDouble))
    || Genuine(v, [Field(key)], d)
  }

  lemma {:induction false} ListDefectsAreGenuine(v: Py, key: string, n: nat, d: Defect)
    requires v.Sequence? && n <= |v.items| && d in ListDefects(v, key, n)
    ensures exists i :: 0 <= i < n && ((!v.items[i].Mapping? && d == MustBe([Field(key), Item(i)], Object)) || Genuine(v.items[i], [Field(key), Item(i)], d))
  {
    hide Genuine, Defects;
    var path := [Field(key), Item(n - 1)];
    if d in ListDefects(v, key, n - 1) {
      ListDefectsAreGenuine(v, key, n - 1, d);
    } else if v.items[n - 1].Mapping? {
      DefectsAreGenuine(v.items[n - 1], path);
    }
  }

  /** Every defect the boundary reports for a field is there, at the path reported. */
  lemma FieldDefectsAreGenuine(key: string, v: Py, strict: bool, toDouble: ToDouble, d: Defect)
    requires d in FieldDefects(key, v, strict, toDouble)
    ensures GenuineInField(key, v, strict, toDouble, d)
  {
    FieldAcceptedIff(key, v, strict, toDouble);
    DefectsAreGenuine(v, [Field(key)]);
    if KindOf(key).ObjectList? && v.Sequence? && d in ListDefects(v, key, |v.items|) {
      ListDefectsAreGenuine(v, key, |v.items|, d);
    }
    hide KindOf, Defects, ListDefects, Genuine, Acceptable, Floats, Numbers;
  }
}
