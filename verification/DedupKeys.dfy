/**
  services/dedup.py: the keys under which alerts are named and threaded together.
  A key is the digest of a dictionary; digest and canonical dump together are taken to be injective.
 */
module DedupKeys {
  import opened Wrappers

  /** A value of the payload. */
  datatype V = Null | Scalar(token: string) | Text(s: string) | List(items: seq<V>) | Object(fields: map<string, V>)

  type Dict = map<string, V>

  /** What the derivations take from elsewhere: text operations, the risk bucket of
      services/analysis/resource_risk.py, and the digest of a dictionary. */
  datatype Env = Env(
    str: V -> string, strip: string -> string, lower: string -> string,
    parseInt: string -> Option<int>, bucket: Dict -> Option<string>, digest: Dict -> string)

  ghost predicate Injective(digest: Dict -> string) {
    forall a: Dict, b: Dict :: digest(a) == digest(b) ==> a == b
  }

  const SOURCE: string := "source"
  const NAME: string := "name"
  const RESOURCE: string := "resource"
  const FINGERPRINT: string := "fingerprint"
  const BUCKET: string := "resource_risk_bucket"
  const NAMESPACE: string := "namespace"
  const PAYLOAD: string := "payload"
  const FIELDS: string := "fields"
  const LABELS: string := "labels"
  const SEVERITY: string := "severity"
  const IDENTITY: string := "_alert_identity"

  lemma NamesDiffer()
    ensures SOURCE != NAME && SOURCE != RESOURCE && SOURCE != FINGERPRINT && SOURCE != BUCKET && SOURCE != NAMESPACE
    ensures NAME != RESOURCE && NAME != FINGERPRINT && NAME != BUCKET && NAME != NAMESPACE
    ensures RESOURCE != FINGERPRINT && RESOURCE != BUCKET && RESOURCE != NAMESPACE
    ensures FINGERPRINT != BUCKET && FINGERPRINT != NAMESPACE && BUCKET != NAMESPACE
    ensures SOURCE != PAYLOAD && SOURCE != FIELDS && SOURCE != LABELS && NAMESPACE != PAYLOAD && NAMESPACE != FIELDS && NAMESPACE != LABELS
    ensures PAYLOAD != FIELDS && PAYLOAD != LABELS && FIELDS != LABELS
    ensures SEVERITY !in {SOURCE, NAME, RESOURCE, FINGERPRINT, BUCKET, NAMESPACE}
  {
    assert |SOURCE| == 6 && |NAME| == 4 && |RESOURCE| == 8 && |FINGERPRINT| == 11 && |BUCKET| == 20 && |NAMESPACE| == 9;
    assert |PAYLOAD| == 7 && |FIELDS| == 6 && |LABELS| == 6 && |SEVERITY| == 8;
    assert SOURCE[0] == 's' && FIELDS[0] == 'f' && LABELS[0] == 'l' && SEVERITY[0] == 's' && RESOURCE[0] == 'r';
  }

  // ---- the adapter identity ----

  /** `_normalize_identity_value` */
  function NormalValue(env: Env, v: V): Option<string> {
    if v.Null? then None else
    var text := env.lower(env.strip(env.str(v)));
    if text == "" then None else Some(text)
  }

  /** `extract_alert_identity` */
  function ExtractIdentity(env: Env, data: Dict): Option<map<string, string>> {
    if IDENTITY !in data || !data[IDENTITY].Object? then None else
    var raw := data[IDENTITY].fields;
    var identity := map k | k in raw && NormalValue(env, raw[k]).Some? :: NormalValue(env, raw[k]).value;
    if identity == map[] then None else Some(identity)
  }

  function Get(m: map<string, string>, k: string, default: string): string { if k in m then m[k] else default }

  /** An absent namespace and an empty one are the same. */
  function NamespaceText(namespace: Option<string>): string { if namespace.Some? then namespace.value else "" }

  /** What the built-in key is made of; a blank component is an absent one. */
  datatype Components = Components(source: string, name: string, resource: string, fingerprint: string, bucket: string, namespace: string)

  function ComponentsOf(env: Env, identity: map<string, string>, data: Dict, source: string, namespace: Option<string>): Components {
    Components(
      env.lower(env.strip(Get(identity, SOURCE, source))),
      env.strip(Get(identity, NAME, "")),
      env.strip(Get(identity, RESOURCE, "")),
      env.strip(Get(identity, FINGERPRINT, "")),
      NamespaceText(env.bucket(data)),
      NamespaceText(namespace))
  }

  function Add(d: Dict, k: string, text: string): Dict { if text == "" then d else d[k := Text(text)] }

  function FieldsOf(c: Components): Dict {
    Add(Add(Add(Add(Add(Add(map[], SOURCE, c.source), NAME, c.name), RESOURCE, c.resource), FINGERPRINT, c.fingerprint), BUCKET, c.bucket), NAMESPACE, c.namespace)
  }

  function Texts(m: map<string, string>): Dict { map k | k in m :: Text(m[k]) }

  function AlertFields(env: Env, identity: map<string, string>, source: string, namespace: Option<string>): Dict {
    var own := Texts(identity);
    var sourced := if SOURCE in own then own else own[SOURCE := Text(env.lower(env.strip(source)))];
    Add(sourced, NAMESPACE, NamespaceText(namespace))
  }

  function BuiltInFields(env: Env, identity: map<string, string>, data: Dict, source: string, namespace: Option<string>): Dict {
    var fields := FieldsOf(ComponentsOf(env, identity, data, source, namespace));
    if fields == map[] then AlertFields(env, identity, source, namespace) else fields
  }

  /** The dictionary of the three derivations that key on a part of the payload. */
  function PartFields(env: Env, source: string, part: string, value: Dict, namespace: Option<string>): Dict {
    Add(map[SOURCE := Text(env.lower(env.strip(source))), part := Object(value)], NAMESPACE, NamespaceText(namespace))
  }

  /** `_default_event_keys` */
  method DefaultEventKeys(env: Env, data: Dict, source: string, namespace: Option<string>) returns (alertHash: string, dedupKey: string)
    ensures alertHash == AlertHash(env, data, source, namespace)
    ensures dedupKey == DefaultKey(env, data, source, namespace)
  {
    var namespaceText := NamespaceText(namespace);
    var identity := ExtractIdentity(env, data);
    if identity.Some? {
      var id := identity.value;
      var alertFields := Texts(id);
      if SOURCE !in alertFields {
        alertFields := alertFields[SOURCE := Text(env.lower(env.strip(source)))];
      }
      if namespaceText != "" {
        alertFields := alertFields[NAMESPACE := Text(namespaceText)];
      }
      alertHash := env.digest(alertFields);
      var c := ComponentsOf(env, id, data, source, namespace);
      var keyFields: Dict := map[];
      if c.source != "" {
        keyFields := keyFields[SOURCE := Text(c.source)];
      }
      if c.name != "" {
        keyFields := keyFields[NAME := Text(c.name)];
      }
      if c.resource != "" {
        keyFields := keyFields[RESOURCE := Text(c.resource)];
      }
      if c.fingerprint != "" {
        keyFields := keyFields[FINGERPRINT := Text(c.fingerprint)];
      }
      if c.bucket != "" {
        keyFields := keyFields[BUCKET := Text(c.bucket)];
      }
      if namespaceText != "" {
        keyFields := keyFields[NAMESPACE := Text(namespaceText)];
      }
      dedupKey := if keyFields != map[] then env.digest(keyFields) else alertHash;
    } else {
      var fallback: Dict := map[SOURCE := Text(env.lower(env.strip(source))), PAYLOAD := Object(data)];
      if namespaceText != "" {
        fallback := fallback[NAMESPACE := Text(namespaceText)];
      }
      alertHash := env.digest(fallback);
      dedupKey := alertHash;
    }
  }

  function AlertHash(env: Env, data: Dict, source: string, namespace: Option<string>): string {
    var identity := ExtractIdentity(env, data);
    env.digest(if identity.Some? then AlertFields(env, identity.value, source, namespace)
               else PartFields(env, source, PAYLOAD, data, namespace))
  }

  function DefaultKey(env: Env, data: Dict, source: string, namespace: Option<string>): string {
    var identity := ExtractIdentity(env, data);
    env.digest(if identity.Some? then BuiltInFields(env, identity.value, data, source, namespace)
               else PartFields(env, source, PAYLOAD, data, namespace))
  }

  // ---- configured identities ----

  /** A dotted path with its parts. */
  datatype FieldPath = FieldPath(name: string, parts: seq<string>)

  /** One hop of a path; absent and null are the same. */
  function Hop(env: Env, v: V, part: string): V {
    match v
    case Object(fields) => if part in fields then fields[part] else Null
    case List(items) =>
      var index := env.parseInt(part);
      if index.None? || !(-|items| <= index.value < |items|) then Null
      else items[if index.value < 0 then index.value + |items| else index.value]
    case _ => Null
  }

  function At(env: Env, v: V, parts: seq<string>): V {
    if parts == [] then v else Hop(env, At(env, v, parts[..|parts| - 1]), parts[|parts| - 1])
  }

  lemma {:induction false} NothingBelowNull(env: Env, v: V, parts: seq<string>, n: nat)
    requires n <= |parts| && At(env, v, parts[..n]).Null?
    ensures At(env, v, parts).Null?
    decreases |parts|
  {
    if n < |parts| {
      assert parts[..|parts| - 1][..n] == parts[..n];
      NothingBelowNull(env, v, parts[..|parts| - 1], n);
    } else {
      assert parts[..n] == parts;
    }
  }

  /** `_extract_field_path` */
  method ExtractFieldPath(env: Env, data: Dict, parts: seq<string>) returns (value: V)
    ensures value == At(env, Object(data), parts)
  {
    value := Object(data);
    for i := 0 to |parts|
      invariant value == At(env, Object(data), parts[..i])
    {
      assert parts[..i + 1][..i] == parts[..i];
      value := Hop(env, value, parts[i]);
      if value.Null? {
        NothingBelowNull(env, Object(data), parts, i + 1);
        return;
      }
    }
    assert parts[..|parts|] == parts;
  }

  /** The configured paths that lead somewhere, with what they lead to. */
  function FieldValues(env: Env, data: Dict, paths: seq<FieldPath>): Dict
    decreases |paths|
  {
    if paths == [] then map[] else
    var last := paths[|paths| - 1];
    var before := FieldValues(env, data, paths[..|paths| - 1]);
    var value := At(env, Object(data), last.parts);
    if value.Null? then before else before[last.name := value]
  }

  function FingerprintFields(env: Env, data: Dict, source: string, paths: seq<FieldPath>, namespace: Option<string>): Option<Dict> {
    var values := FieldValues(env, data, paths);
    if values == map[] then None else Some(PartFields(env, source, FIELDS, values, namespace))
  }

  function Digested(env: Env, fields: Option<Dict>): Option<string> {
    if fields.Some? then Some(env.digest(fields.value)) else None
  }

  /** `_fingerprint_dedup_key` */
  method FingerprintDedupKey(env: Env, data: Dict, source: string, paths: seq<FieldPath>, namespace: Option<string>) returns (key: Option<string>)
    ensures key == Digested(env, FingerprintFields(env, data, source, paths, namespace))
  {
    var values: Dict := map[];
    for i := 0 to |paths|
      invariant values == FieldValues(env, data, paths[..i])
    {
      assert paths[..i + 1][..i] == paths[..i];
      var value := ExtractFieldPath(env, data, paths[i].parts);
      if !value.Null? {
        values := values[paths[i].name := value];
      }
    }
    assert paths[..|paths|] == paths;
    if values == map[] {
      return None;
    }
    return Some(env.digest(PartFields(env, source, FIELDS, values, namespace)));
  }

  const LABEL_PATHS: seq<seq<string>> := [["alerts", "0", "labels"], ["commonLabels"], ["labels"]]

  /** The labels of the alert: the first of the places that holds some. */
  function LabelsOf(env: Env, data: Dict, places: seq<seq<string>>): Dict
    decreases |places|
  {
    if places == [] then map[] else
    var here := At(env, Object(data), places[0]);
    if here.Object? && here.fields != map[] then here.fields else LabelsOf(env, data, places[1..])
  }

  function LabelFields(env: Env, data: Dict, source: string, excluded: set<string>, namespace: Option<string>): Option<Dict> {
    var kept := LabelsOf(env, data, LABEL_PATHS) - excluded;
    if kept == map[] then None else Some(PartFields(env, source, LABELS, kept, namespace))
  }

  /** `_label_identity_dedup_key` */
  method LabelIdentityDedupKey(env: Env, data: Dict, source: string, excluded: set<string>, namespace: Option<string>) returns (key: Option<string>)
    ensures key == Digested(env, LabelFields(env, data, source, excluded, namespace))
  {
    var places := LABEL_PATHS;
    for i := 0 to |places|
      invariant LabelsOf(env, data, places) == LabelsOf(env, data, places[i..])
    {
      var labels := ExtractFieldPath(env, data, places[i]);
      if labels.Object? && labels.fields != map[] {
        var kept := map k | k in labels.fields && k !in excluded :: labels.fields[k];
        assert kept == LabelsOf(env, data, places) - excluded;
        if kept == map[] {
          return None;
        }
        return Some(env.digest(PartFields(env, source, LABELS, kept, namespace)));
      }
      assert places[i..][1..] == places[i + 1..];
    }
    assert LabelsOf(env, data, places) - excluded == map[];
    return None;
  }

  datatype Mode = Off | Shadow | Enforce

  /** The setting in force for the source. */
  datatype Config = Config(mode: Mode, paths: seq<FieldPath>, excluded: set<string>)

  /** The dictionary an enforced configuration keys on, where it finds anything. */
  function ConfiguredFields(env: Env, config: Config, data: Dict, source: string, namespace: Option<string>): Option<Dict> {
    if config.paths != [] then FingerprintFields(env, data, source, config.paths, namespace)
    else if config.excluded != {} then LabelFields(env, data, source, config.excluded, namespace)
    else None
  }

  function DedupKey(env: Env, config: Config, data: Dict, source: string, namespace: Option<string>): string {
    var configured := ConfiguredFields(env, config, data, source, namespace);
    if config.mode.Enforce? && configured.Some? then env.digest(configured.value) else DefaultKey(env, data, source, namespace)
  }

  /** `generate_event_keys`: the alert hash is the same under every configuration, and shadow answers as off does. */
  method GenerateEventKeys(env: Env, config: Config, data: Dict, source: string, namespace: Option<string>) returns (alertHash: string, dedupKey: string)
    ensures alertHash == AlertHash(env, data, source, namespace)
    ensures dedupKey == DedupKey(env, config, data, source, namespace)
    ensures !config.mode.Enforce? ==> dedupKey == DefaultKey(env, data, source, namespace)
  {
    hide AlertHash, DefaultKey, FingerprintFields, LabelFields;
    alertHash, dedupKey := DefaultEventKeys(env, data, source, namespace);
    if config.mode.Off? || (config.paths == [] && config.excluded == {}) {
      return;
    }
    var configured: Option<string>;
    if config.paths != [] {
      configured := FingerprintDedupKey(env, data, source, config.paths, namespace);
    } else {
      configured := LabelIdentityDedupKey(env, data, source, config.excluded, namespace);
    }
    if configured.None? || config.mode.Shadow? {
      return;
    }
    dedupKey := configured.value;
  }

  // ---- which alerts share a key ----

  function TextAt(d: Dict, k: string): string { if k in d && d[k].Text? then d[k].s else "" }

  /** Absent fields read as blank, so the dictionary still tells every component. */
  lemma FieldsTellComponents(c: Components)
    ensures var d := FieldsOf(c);
            c == Components(TextAt(d, SOURCE), TextAt(d, NAME), TextAt(d, RESOURCE), TextAt(d, FINGERPRINT), TextAt(d, BUCKET), TextAt(d, NAMESPACE))
    ensures forall k :: k in FieldsOf(c) ==> FieldsOf(c)[k].Text?
  {
    NamesDiffer();
  }

  predicate IsPart(part: string) { part == PAYLOAD || part == FIELDS || part == LABELS }

  lemma PartTellsAll(env: Env, source: string, part: string, value: Dict, namespace: Option<string>)
    requires IsPart(part)
    ensures var d := PartFields(env, source, part, value, namespace);
            && TextAt(d, SOURCE) == env.lower(env.strip(source)) && TextAt(d, NAMESPACE) == NamespaceText(namespace)
            && part in d && d[part] == Object(value) && (forall k :: k in d && d[k].Object? ==> k == part)
  {
    NamesDiffer();
  }

  /** Everything a dedup key says about its alert. */
  datatype Content =
    | Named(c: Components)
    | Part(part: string, source: string, value: Dict, namespace: string)

  function ContentOf(env: Env, config: Config, data: Dict, source: string, namespace: Option<string>): Content {
    var origin, scope := env.lower(env.strip(source)), NamespaceText(namespace);
    var values := FieldValues(env, data, config.paths);
    var kept := LabelsOf(env, data, LABEL_PATHS) - config.excluded;
    var identity := ExtractIdentity(env, data);
    if config.mode.Enforce? && values != map[] then Part(FIELDS, origin, values, scope)
    else if config.mode.Enforce? && config.paths == [] && config.excluded != {} && kept != map[] then Part(LABELS, origin, kept, scope)
    else if identity.Some? then Named(ComponentsOf(env, identity.value, data, source, namespace))
    else Part(PAYLOAD, origin, data, scope)
  }

  /** The dictionary under the key. */
  function KeyFields(env: Env, config: Config, data: Dict, source: string, namespace: Option<string>): Dict {
    var configured := ConfiguredFields(env, config, data, source, namespace);
    var identity := ExtractIdentity(env, data);
    if config.mode.Enforce? && configured.Some? then configured.value
    else if identity.Some? then BuiltInFields(env, identity.value, data, source, namespace)
    else PartFields(env, source, PAYLOAD, data, namespace)
  }

  /** `d` is a dictionary for `content`. */
  predicate Holds(d: Dict, content: Content) {
    match content
    case Named(c) =>
      && c == Components(TextAt(d, SOURCE), TextAt(d, NAME), TextAt(d, RESOURCE), TextAt(d, FINGERPRINT), TextAt(d, BUCKET), TextAt(d, NAMESPACE))
      && forall k :: k in d ==> d[k].Text?
    case Part(part, source, value, namespace) =>
      && TextAt(d, SOURCE) == source && TextAt(d, NAMESPACE) == namespace
      && part in d && d[part] == Object(value) && forall k :: k in d && d[k].Object? ==> k == part
  }

  lemma HoldsOne(d: Dict, a: Content, b: Content)
    requires Holds(d, a) && Holds(d, b)
    ensures a == b
  {
  }

  lemma KeyFieldsHoldContent(env: Env, config: Config, data: Dict, source: string, namespace: Option<string>)
    requires var content := ContentOf(env, config, data, source, namespace); content.Named? ==> content.c.source != ""
    ensures Holds(KeyFields(env, config, data, source, namespace), ContentOf(env, config, data, source, namespace))
  {
    hide PartFields, FieldsOf, AlertFields, ComponentsOf, LabelsOf, FieldValues, ExtractIdentity;
    var content := ContentOf(env, config, data, source, namespace);
    if content.Named? {
      FieldsTellComponents(content.c);
      assert TextAt(FieldsOf(content.c), SOURCE) != "";
      assert FieldsOf(content.c) != map[];
    } else {
      PartTellsAll(env, source, content.part, content.value, namespace);
    }
    assert config.paths == [] ==> FieldValues(env, data, config.paths) == map[] by { NoPaths(env, data); }
  }

  lemma NoPaths(env: Env, data: Dict)
    ensures FieldValues(env, data, []) == map[]
  {
  }

  /** Two alerts with a source share a dedup key exactly when the key says the same of both: the same derivation, namespace and
      source, and the same identity components, configured values, remaining labels or whole payload. */
  lemma SameKeyIffSameContent(env: Env, config1: Config, data1: Dict, source1: string, namespace1: Option<string>,
                              config2: Config, data2: Dict, source2: string, namespace2: Option<string>)
    requires Injective(env.digest)
    requires var content := ContentOf(env, config1, data1, source1, namespace1); content.Named? ==> content.c.source != ""
    requires var content := ContentOf(env, config2, data2, source2, namespace2); content.Named? ==> content.c.source != ""
    ensures DedupKey(env, config1, data1, source1, namespace1) == DedupKey(env, config2, data2, source2, namespace2)
            <==> ContentOf(env, config1, data1, source1, namespace1) == ContentOf(env, config2, data2, source2, namespace2)
  {
    var d1, d2 := KeyFields(env, config1, data1, source1, namespace1), KeyFields(env, config2, data2, source2, namespace2);
    var c1, c2 := ContentOf(env, config1, data1, source1, namespace1), ContentOf(env, config2, data2, source2, namespace2);
    assert DedupKey(env, config1, data1, source1, namespace1) == env.digest(d1);
    assert DedupKey(env, config2, data2, source2, namespace2) == env.digest(d2);
    KeyFieldsHoldContent(env, config1, data1, source1, namespace1);
    KeyFieldsHoldContent(env, config2, data2, source2, namespace2);
    hide KeyFields, ContentOf, DedupKey, Holds;
    if env.digest(d1) == env.digest(d2) {
      HoldsOne(d1, c1, c2);
    }
    if c1 == c2 {
      SameContentSameFields(env, config1, data1, source1, namespace1, config2, data2, source2, namespace2);
    }
  }

  lemma SameContentSameFields(env: Env, config1: Config, data1: Dict, source1: string, namespace1: Option<string>,
                              config2: Config, data2: Dict, source2: string, namespace2: Option<string>)
    requires var content := ContentOf(env, config1, data1, source1, namespace1); content.Named? ==> content.c.source != ""
    requires ContentOf(env, config1, data1, source1, namespace1) == ContentOf(env, config2, data2, source2, namespace2)
    ensures KeyFields(env, config1, data1, source1, namespace1) == KeyFields(env, config2, data2, source2, namespace2)
  {
    FieldsFromContent(env, config1, data1, source1, namespace1);
    FieldsFromContent(env, config2, data2, source2, namespace2);
  }

  function Rendered(content: Content): Dict {
    match content
    case Named(c) => FieldsOf(c)
    case Part(part, source, value, namespace) => Add(map[SOURCE := Text(source), part := Object(value)], NAMESPACE, namespace)
  }

  lemma FieldsFromContent(env: Env, config: Config, data: Dict, source: string, namespace: Option<string>)
    requires var content := ContentOf(env, config, data, source, namespace); content.Named? ==> content.c.source != ""
    ensures KeyFields(env, config, data, source, namespace) == Rendered(ContentOf(env, config, data, source, namespace))
  {
    hide FieldsOf, AlertFields, ComponentsOf, LabelsOf, FieldValues, ExtractIdentity, Add;
    var content := ContentOf(env, config, data, source, namespace);
    if content.Named? {
      FieldsTellComponents(content.c);
      assert TextAt(FieldsOf(content.c), SOURCE) != "";
    }
    NoPaths(env, data);
  }

  /** Whatever the derivation, keys of different namespaces differ. */
  lemma NamespacesNeverMeet(env: Env, config1: Config, data1: Dict, source1: string, namespace1: Option<string>,
                            config2: Config, data2: Dict, source2: string, namespace2: Option<string>)
    requires Injective(env.digest)
    requires var content := ContentOf(env, config1, data1, source1, namespace1); content.Named? ==> content.c.source != ""
    requires var content := ContentOf(env, config2, data2, source2, namespace2); content.Named? ==> content.c.source != ""
    requires NamespaceText(namespace1) != NamespaceText(namespace2)
    ensures DedupKey(env, config1, data1, source1, namespace1) != DedupKey(env, config2, data2, source2, namespace2)
  {
    SameKeyIffSameContent(env, config1, data1, source1, namespace1, config2, data2, source2, namespace2);
  }

  /** Alerts that differ in severity alone share the built-in key, unless every component is blank: then the
      alert hash stands in for the key, and it does tell severities apart. */
  lemma SeverityMattersIffNothingElse(env: Env, data1: Dict, data2: Dict, source: string, namespace: Option<string>)
    requires Injective(env.digest)
    requires ExtractIdentity(env, data1).Some? && ExtractIdentity(env, data2).Some?
    requires var id1, id2 := ExtractIdentity(env, data1).value, ExtractIdentity(env, data2).value;
             id1 != id2 && id1 - {SEVERITY} == id2 - {SEVERITY}
    requires env.bucket(data1) == env.bucket(data2)
    ensures DefaultKey(env, data1, source, namespace) == DefaultKey(env, data2, source, namespace)
            <==> FieldsOf(ComponentsOf(env, ExtractIdentity(env, data1).value, data1, source, namespace)) != map[]
  {
    NamesDiffer();
    hide ExtractIdentity, FieldsOf;
    var id1, id2 := ExtractIdentity(env, data1).value, ExtractIdentity(env, data2).value;
    AgreeOff(id1, id2, SEVERITY, SOURCE);
    AgreeOff(id1, id2, SEVERITY, NAME);
    AgreeOff(id1, id2, SEVERITY, RESOURCE);
    AgreeOff(id1, id2, SEVERITY, FINGERPRINT);
    assert ComponentsOf(env, id1, data1, source, namespace) == ComponentsOf(env, id2, data2, source, namespace);
    AlertFieldsTellIdentity(env, id1, id2, source, namespace);
  }

  lemma AgreeOff(m1: map<string, string>, m2: map<string, string>, off: string, k: string)
    requires m1 - {off} == m2 - {off} && k != off
    ensures k in m1 <==> k in m2
    ensures k in m1 ==> m1[k] == m2[k]
  {
    assert k in m1 <==> k in m1 - {off};
    assert k in m2 <==> k in m2 - {off};
  }

  /** Identities that differ in severity alone have different alert hashes. */
  lemma AlertFieldsTellIdentity(env: Env, id1: map<string, string>, id2: map<string, string>, source: string, namespace: Option<string>)
    requires id1 != id2 && id1 - {SEVERITY} == id2 - {SEVERITY}
    ensures AlertFields(env, id1, source, namespace) != AlertFields(env, id2, source, namespace)
  {
    NamesDiffer();
    if (SEVERITY in id1 <==> SEVERITY in id2) && (SEVERITY in id1 ==> id1[SEVERITY] == id2[SEVERITY]) {
      forall k ensures k in id1 <==> k in id2
               ensures k in id1 ==> id1[k] == id2[k]
      {
        if k != SEVERITY {
          AgreeOff(id1, id2, SEVERITY, k);
        }
      }
      assert false;
    } else {
      var a1, a2 := AlertFields(env, id1, source, namespace), AlertFields(env, id2, source, namespace);
      assert SEVERITY in a1 <==> SEVERITY in id1;
      assert SEVERITY in a2 <==> SEVERITY in id2;
    }
  }

  /** Only an identity that brings its own `namespace` lets the alert hashes of two namespaces meet. */
  lemma AlertHashNamespaces(env: Env, data: Dict, source: string, namespace1: Option<string>, namespace2: Option<string>)
    requires Injective(env.digest)
    requires ExtractIdentity(env, data).Some? && NamespaceText(namespace1) != NamespaceText(namespace2)
    ensures var own := Get(ExtractIdentity(env, data).value, NAMESPACE, "");
            AlertHash(env, data, source, namespace1) == AlertHash(env, data, source, namespace2)
            <==> own != "" && ((NamespaceText(namespace1) == "" && NamespaceText(namespace2) == own) || (NamespaceText(namespace2) == "" && NamespaceText(namespace1) == own))
  {
    NamesDiffer();
    hide ExtractIdentity;
    var id := ExtractIdentity(env, data).value;
    var a1, a2 := AlertFields(env, id, source, namespace1), AlertFields(env, id, source, namespace2);
    var n1, n2 := NamespaceText(namespace1), NamespaceText(namespace2);
    var own := Get(id, NAMESPACE, "");
    assert TextAt(a1, NAMESPACE) == if n1 == "" then own else n1;
    assert TextAt(a2, NAMESPACE) == if n2 == "" then own else n2;
    if own != "" && ((n1 == "" && n2 == own) || (n2 == "" && n1 == own)) {
      assert a1 == a2;
    }
  }

  /** A payload whose identity is the one field `k`. */
  function OnlyField(k: string, text: string): Dict { map[IDENTITY := Object(map[k := Text(text)])] }

  lemma OnlyFieldIdentity(env: Env, k: string, text: string)
    requires NormalValue(env, Text(text)) == Some(text)
    ensures ExtractIdentity(env, OnlyField(k, text)) == Some(map[k := text])
  {
    var raw: Dict := map[k := Text(text)];
    var identity := map x | x in raw && NormalValue(env, raw[x]).Some? :: NormalValue(env, raw[x]).value;
    assert identity == map[k := text];
    assert k in identity;
  }

  /** Two alerts without a source that have a severity and nothing else: the built-in keys differ by it. */
  lemma SeverityAloneSplitsKeys(env: Env, mild: string, severe: string)
    requires Injective(env.digest) && mild != severe
    requires NormalValue(env, Text(mild)) == Some(mild) && NormalValue(env, Text(severe)) == Some(severe)
    requires env.strip("") == "" && env.lower("") == ""
    requires env.bucket(OnlyField(SEVERITY, mild)) == None && env.bucket(OnlyField(SEVERITY, severe)) == None
    ensures DefaultKey(env, OnlyField(SEVERITY, mild), "", None) != DefaultKey(env, OnlyField(SEVERITY, severe), "", None)
  {
    var data1, data2 := OnlyField(SEVERITY, mild), OnlyField(SEVERITY, severe);
    OnlyFieldIdentity(env, SEVERITY, mild);
    OnlyFieldIdentity(env, SEVERITY, severe);
    var id1, id2 := map[SEVERITY := mild], map[SEVERITY := severe];
    assert id1[SEVERITY] != id2[SEVERITY];
    assert id1 - {SEVERITY} == id2 - {SEVERITY};
    NamesDiffer();
    assert ComponentsOf(env, id1, data1, "", None) == Components("", "", "", "", "", "");
    assert FieldsOf(Components("", "", "", "", "", "")) == map[];
    hide OnlyField, DefaultKey, ExtractIdentity, ComponentsOf, FieldsOf;
    SeverityMattersIffNothingElse(env, data1, data2, "", None);
  }

  /** An identity that names a namespace of its own: the alert hash outside any namespace is the one inside it. */
  lemma OwnNamespaceMeetsOutside(env: Env, source: string, namespace: string)
    requires Injective(env.digest) && NormalValue(env, Text(namespace)) == Some(namespace)
    ensures AlertHash(env, OnlyField(NAMESPACE, namespace), source, None) == AlertHash(env, OnlyField(NAMESPACE, namespace), source, Some(namespace))
  {
    OnlyFieldIdentity(env, NAMESPACE, namespace);
    hide OnlyField, AlertHash, ExtractIdentity;
    AlertHashNamespaces(env, OnlyField(NAMESPACE, namespace), source, None, Some(namespace));
  }

  // ---- the keys, field by field -----------------------------------------------------------------------------

  /** The identity holds, under its own names, the values of the payload's identity that are not null, stripped and in lower
      case, unless nothing is left of them; and there is none when nothing is left at all. */
  lemma IdentityExactly(env: Env, data: Dict, k: string, text: string)
    requires IDENTITY in data && data[IDENTITY].Object?
    ensures var raw := data[IDENTITY].fields;
            (ExtractIdentity(env, data).Some? && k in ExtractIdentity(env, data).value && ExtractIdentity(env, data).value[k] == text) <==>
            k in raw && !raw[k].Null? && text == env.lower(env.strip(env.str(raw[k]))) && text != ""
  {
    var raw := data[IDENTITY].fields;
    var identity := map x | x in raw && NormalValue(env, raw[x]).Some? :: NormalValue(env, raw[x]).value;
    if k in identity {
      assert identity != map[];
    }
  }

  lemma NoIdentity(env: Env, data: Dict)
    requires IDENTITY !in data || !data[IDENTITY].Object?
    ensures ExtractIdentity(env, data) == None
  {
  }

  /** The text of an identity field, or another text where it is missing. */
  function TextOf(id: map<string, string>, k: string, other: string): string { if k in id then id[k] else other }

  /** Two alerts with identities and a source share the built-in key exactly when source, name, resource, fingerprint, risk bucket
      and namespace agree, each as the key reads it. */
  lemma SameBuiltInKeyIff(env: Env, data1: Dict, source1: string, namespace1: Option<string>, data2: Dict, source2: string, namespace2: Option<string>)
    requires Injective(env.digest) && ExtractIdentity(env, data1).Some? && ExtractIdentity(env, data2).Some?
    requires env.lower(env.strip(TextOf(ExtractIdentity(env, data1).value, "source", source1))) != ""
    requires env.lower(env.strip(TextOf(ExtractIdentity(env, data2).value, "source", source2))) != ""
    ensures var id1, id2 := ExtractIdentity(env, data1).value, ExtractIdentity(env, data2).value;
            DefaultKey(env, data1, source1, namespace1) == DefaultKey(env, data2, source2, namespace2) <==>
            && env.lower(env.strip(TextOf(id1, "source", source1))) == env.lower(env.strip(TextOf(id2, "source", source2)))
            && env.strip(TextOf(id1, "name", "")) == env.strip(TextOf(id2, "name", ""))
            && env.strip(TextOf(id1, "resource", "")) == env.strip(TextOf(id2, "resource", ""))
            && env.strip(TextOf(id1, "fingerprint", "")) == env.strip(TextOf(id2, "fingerprint", ""))
            && NamespaceText(env.bucket(data1)) == NamespaceText(env.bucket(data2))
            && NamespaceText(namespace1) == NamespaceText(namespace2)
  {
    var id1, id2 := ExtractIdentity(env, data1).value, ExtractIdentity(env, data2).value;
    var c1, c2 := ComponentsOf(env, id1, data1, source1, namespace1), ComponentsOf(env, id2, data2, source2, namespace2);
    assert c1.source != "" && c2.source != "";
    hide ExtractIdentity, ComponentsOf, AlertFields;
    SourcedKey(env, data1, source1, namespace1);
    SourcedKey(env, data2, source2, namespace2);
    hide DefaultKey, FieldsOf;
    FieldsTellComponents(c1);
    FieldsTellComponents(c2);
  }

  lemma SourcedKey(env: Env, data: Dict, source: string, namespace: Option<string>)
    requires ExtractIdentity(env, data).Some? && ComponentsOf(env, ExtractIdentity(env, data).value, data, source, namespace).source != ""
    ensures DefaultKey(env, data, source, namespace) == env.digest(FieldsOf(ComponentsOf(env, ExtractIdentity(env, data).value, data, source, namespace)))
  {
    hide ExtractIdentity, ComponentsOf, FieldsOf, AlertFields;
    var c := ComponentsOf(env, ExtractIdentity(env, data).value, data, source, namespace);
    FieldsTellComponents(c);
    assert TextAt(FieldsOf(c), SOURCE) != "";
  }

  /** The text of a field of the dictionary under the alert hash. */
  function HashedText(env: Env, id: map<string, string>, source: string, namespace: Option<string>, k: string): Option<string> {
    if k == "namespace" && NamespaceText(namespace) != "" then Some(NamespaceText(namespace))
    else if k in id then Some(id[k])
    else if k == "source" then Some(env.lower(env.strip(source)))
    else None
  }

  /** Two alerts with identities share the alert hash exactly when all fields of their identities do, with the source filled in
      where it is missing and the namespace on top. */
  lemma SameAlertHashIff(env: Env, data1: Dict, source1: string, namespace1: Option<string>, data2: Dict, source2: string, namespace2: Option<string>)
    requires Injective(env.digest) && ExtractIdentity(env, data1).Some? && ExtractIdentity(env, data2).Some?
    ensures AlertHash(env, data1, source1, namespace1) == AlertHash(env, data2, source2, namespace2) <==>
            forall k :: HashedText(env, ExtractIdentity(env, data1).value, source1, namespace1, k) ==
                        HashedText(env, ExtractIdentity(env, data2).value, source2, namespace2, k)
  {
    hide ExtractIdentity;
    var id1, id2 := ExtractIdentity(env, data1).value, ExtractIdentity(env, data2).value;
    var a1, a2 := AlertFields(env, id1, source1, namespace1), AlertFields(env, id2, source2, namespace2);
    forall k
      ensures HashedText(env, id1, source1, namespace1, k) == if k in a1 then Some(a1[k].s) else None
      ensures HashedText(env, id2, source2, namespace2, k) == if k in a2 then Some(a2[k].s) else None
      ensures (k in a1 ==> a1[k].Text?) && (k in a2 ==> a2[k].Text?)
    {
      HashedFields(env, id1, source1, namespace1, k);
      HashedFields(env, id2, source2, namespace2, k);
    }
    hide AlertFields, HashedText;
    if forall k :: HashedText(env, id1, source1, namespace1, k) == HashedText(env, id2, source2, namespace2, k) {
      forall k
        ensures k in a1 <==> k in a2
        ensures k in a1 && k in a2 ==> a1[k] == a2[k]
      {
        assert HashedText(env, id1, source1, namespace1, k) == HashedText(env, id2, source2, namespace2, k);
      }
      assert a1 == a2;
    }
  }

  lemma HashedFields(env: Env, id: map<string, string>, source: string, namespace: Option<string>, k: string)
    ensures var d := AlertFields(env, id, source, namespace);
            (k in d ==> d[k].Text?) && HashedText(env, id, source, namespace, k) == if k in d then Some(d[k].s) else None
  {
    NamesDiffer();
  }

  /** An alert without an identity is keyed, and hashed, by its source, namespace and whole payload. */
  lemma WholePayloadKeyIff(env: Env, data1: Dict, source1: string, namespace1: Option<string>, data2: Dict, source2: string, namespace2: Option<string>)
    requires Injective(env.digest) && ExtractIdentity(env, data1).None? && ExtractIdentity(env, data2).None?
    ensures DefaultKey(env, data1, source1, namespace1) == AlertHash(env, data1, source1, namespace1)
    ensures DefaultKey(env, data1, source1, namespace1) == DefaultKey(env, data2, source2, namespace2) <==>
            data1 == data2 && env.lower(env.strip(source1)) == env.lower(env.strip(source2)) && NamespaceText(namespace1) == NamespaceText(namespace2)
  {
    hide ExtractIdentity;
    PartTellsAll(env, source1, PAYLOAD, data1, namespace1);
    PartTellsAll(env, source2, PAYLOAD, data2, namespace2);
  }

  /** Labels are taken from the first place that holds a non-empty mapping: the first alert's, the common ones, the payload's own. */
  lemma LabelsAreFirst(env: Env, data: Dict, n: nat)
    requires n < 3 && (forall i :: 0 <= i < n ==> !HasLabels(env, data, LABEL_PATHS[i])) && HasLabels(env, data, LABEL_PATHS[n])
    ensures LABEL_PATHS == [["alerts", "0", "labels"], ["commonLabels"], ["labels"]]
    ensures Object(LabelsOf(env, data, LABEL_PATHS)) == At(env, Object(data), LABEL_PATHS[n])
  {
    hide At;
    var places := LABEL_PATHS;
    assert LabelsOf(env, data, places) == if HasLabels(env, data, places[0]) then At(env, Object(data), places[0]).fields else LabelsOf(env, data, places[1..]);
    assert LabelsOf(env, data, places[1..]) == if HasLabels(env, data, places[1]) then At(env, Object(data), places[1]).fields else LabelsOf(env, data, places[1..][1..]);
    assert places[1..][1..][0] == places[2];
  }

  lemma NoLabelsAnywhere(env: Env, data: Dict)
    requires forall i :: 0 <= i < |LABEL_PATHS| ==> !HasLabels(env, data, LABEL_PATHS[i])
    ensures LabelsOf(env, data, LABEL_PATHS) == map[]
  {
    hide At;
    var places := LABEL_PATHS;
    assert !HasLabels(env, data, places[0]) && !HasLabels(env, data, places[1..][0]) && !HasLabels(env, data, places[1..][1..][0]);
    assert LabelsOf(env, data, places) == LabelsOf(env, data, places[1..]);
    assert LabelsOf(env, data, places[1..]) == LabelsOf(env, data, places[1..][1..]);
    assert LabelsOf(env, data, places[1..][1..]) == LabelsOf(env, data, places[1..][1..][1..]);
  }

  predicate HasLabels(env: Env, data: Dict, place: seq<string>) {
    At(env, Object(data), place).Object? && At(env, Object(data), place).fields != map[]
  }

  /** A path of one more part: into a dictionary by name, into a list by number, from the end when that is negative, and nowhere else. */
  lemma OneMorePart(env: Env, v: V, parts: seq<string>, part: string)
    ensures var here, there := At(env, v, parts), At(env, v, parts + [part]);
            && (here.Object? && part in here.fields ==> there == here.fields[part])
            && (here.Object? && part !in here.fields ==> there == Null)
            && (here.List? && env.parseInt(part).Some? && 0 <= env.parseInt(part).value < |here.items| ==> there == here.items[env.parseInt(part).value])
            && (here.List? && env.parseInt(part).Some? && -|here.items| <= env.parseInt(part).value < 0 ==>
                  there == here.items[|here.items| + env.parseInt(part).value])
            && (here.List? && (env.parseInt(part).None? || env.parseInt(part).value >= |here.items| || env.parseInt(part).value < -|here.items|) ==> there == Null)
            && (!here.Object? && !here.List? ==> there == Null)
  {
    assert (parts + [part])[..|parts + [part]| - 1] == parts;
  }

  /** A configured identity is used only when enforced and where it finds something; named fields win over excluded labels. */
  lemma ConfiguredKeyWins(env: Env, config: Config, data: Dict, source: string, namespace: Option<string>)
    requires config.mode.Enforce?
    ensures var values := FieldValues(env, data, config.paths);
            var kept := LabelsOf(env, data, LABEL_PATHS) - config.excluded;
            && (config.paths != [] && values != map[] ==>
                  DedupKey(env, config, data, source, namespace) == env.digest(PartFields(env, source, "fields", values, namespace)))
            && (config.paths == [] && config.excluded != {} && kept != map[] ==>
                  DedupKey(env, config, data, source, namespace) == env.digest(PartFields(env, source, "labels", kept, namespace)))
            && ((config.paths != [] && values == map[]) || (config.paths == [] && (config.excluded == {} || kept == map[])) ==>
                  DedupKey(env, config, data, source, namespace) == DefaultKey(env, data, source, namespace))
  {
    hide FieldValues, LabelsOf, PartFields, DefaultKey;
  }

  // ---- configured paths ----

  /** A name has one reading as a path. */
  predicate Functional(paths: seq<FieldPath>) {
    forall i, j :: 0 <= i < |paths| && 0 <= j < |paths| && paths[i].name == paths[j].name ==> paths[i].parts == paths[j].parts
  }

  lemma {:induction false} FieldValuesAre(env: Env, data: Dict, paths: seq<FieldPath>, all: seq<FieldPath>)
    requires paths <= all && Functional(all)
    ensures var values := FieldValues(env, data, paths);
            && (forall k :: k in values ==> exists i :: 0 <= i < |paths| && paths[i].name == k)
            && forall i :: 0 <= i < |all| && all[i].name in values ==> values[all[i].name] == At(env, Object(data), all[i].parts) && !values[all[i].name].Null?
    ensures forall i :: 0 <= i < |paths| && !At(env, Object(data), paths[i].parts).Null? ==> paths[i].name in FieldValues(env, data, paths)
    decreases |paths|
  {
    if paths != [] {
      var before := paths[..|paths| - 1];
      FieldValuesAre(env, data, before, all);
      assert forall i :: 0 <= i < |before| ==> before[i] == paths[i];
      assert paths[|paths| - 1] == all[|paths| - 1];
    }
  }

  /** Every configured path leads to the same value, or nowhere, in both payloads. */
  predicate PathsAgree(env: Env, data1: Dict, data2: Dict, paths: seq<FieldPath>) {
    forall i :: 0 <= i < |paths| ==> At(env, Object(data1), paths[i].parts) == At(env, Object(data2), paths[i].parts)
  }

  lemma ValueCarriesOver(env: Env, data1: Dict, data2: Dict, paths: seq<FieldPath>, k: string)
    requires Functional(paths) && PathsAgree(env, data1, data2, paths) && k in FieldValues(env, data1, paths)
    ensures k in FieldValues(env, data2, paths) && FieldValues(env, data2, paths)[k] == FieldValues(env, data1, paths)[k]
  {
    FieldValuesAre(env, data1, paths, paths);
    FieldValuesAre(env, data2, paths, paths);
    hide FieldValues, At, Functional;
    var i :| 0 <= i < |paths| && paths[i].name == k;
  }

  lemma PathValue(env: Env, data: Dict, paths: seq<FieldPath>, i: nat)
    requires Functional(paths) && i < |paths|
    ensures var values := FieldValues(env, data, paths);
            At(env, Object(data), paths[i].parts) == if paths[i].name in values then values[paths[i].name] else Null
  {
    FieldValuesAre(env, data, paths, paths);
    hide FieldValues, At, Functional;
  }

  /** Payloads agree on the configured values exactly when they agree on every configured path. */
  lemma SameValuesIff(env: Env, data1: Dict, data2: Dict, paths: seq<FieldPath>)
    requires Functional(paths)
    ensures FieldValues(env, data1, paths) == FieldValues(env, data2, paths) <==> PathsAgree(env, data1, data2, paths)
  {
    hide FieldValues, At, Functional;
    var v1, v2 := FieldValues(env, data1, paths), FieldValues(env, data2, paths);
    if v1 == v2 {
      forall i | 0 <= i < |paths| ensures At(env, Object(data1), paths[i].parts) == At(env, Object(data2), paths[i].parts) {
        PathValue(env, data1, paths, i);
        PathValue(env, data2, paths, i);
      }
    } else if PathsAgree(env, data1, data2, paths) {
      forall k | k in v1 ensures k in v2 && v2[k] == v1[k] {
        ValueCarriesOver(env, data1, data2, paths, k);
      }
      forall k | k in v2 ensures k in v1 {
        ValueCarriesOver(env, data2, data1, paths, k);
      }
      assert false;
    }
  }
}
