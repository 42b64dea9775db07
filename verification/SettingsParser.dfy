/** Reading `shardingSettings` out of a request body that was decoded from JSON. */
module SettingsParser {
  import opened Wrappers
  import opened ShardKeys
  import opened ShardCatalog

  datatype Json = Obj(fields: map<string, Json>) | Arr(items: seq<Json>) | Text(text: string) | Bool(value: bool) | Other

  datatype Settings = Settings(requests: seq<Request>, extra: Option<map<string, Json>>)

  // ----- what a well-formed part reads as

  function FieldOf(item: Json): Option<ShardKeyField> {
    if item.Obj? && "field" in item.fields && item.fields["field"].Text? && item.fields["field"].text != ""
    then Some(ShardKeyField(item.fields["field"].text, "hashed" in item.fields && item.fields["hashed"] == Bool(true)))
    else None
  }

  function FieldsOf(items: seq<Json>): Option<seq<ShardKeyField>> {
    if items == [] then Some([]) else
      var before, last := FieldsOf(items[..|items| - 1]), FieldOf(items[|items| - 1]);
      if before.Some? && last.Some? then Some(before.value + [last.value]) else None
  }

  function RequestOf(item: Json): Option<Request> {
    if item.Obj? && "collectionName" in item.fields && item.fields["collectionName"].Text?
       && item.fields["collectionName"].text != ""
       && "shardKey" in item.fields && item.fields["shardKey"].Arr? && item.fields["shardKey"].items != []
    then
      match FieldsOf(item.fields["shardKey"].items)
      case None => None
      case Some(fields) =>
        if HashedFields(fields) > 1 then None else Some(Request(item.fields["collectionName"].text, fields))
    else None
  }

  function RequestsOf(items: seq<Json>): Option<seq<Request>> {
    if items == [] then Some([]) else
      var before, last := RequestsOf(items[..|items| - 1]), RequestOf(items[|items| - 1]);
      if before.Some? && last.Some? then Some(before.value + [last.value]) else None
  }

  /** Absent settings are no settings; anything malformed fails the whole request. */
  function SettingsOf(settings: map<string, Json>): Result<Settings> {
    if "shardingSettings" !in settings then Success(Settings([], None))
    else if !settings["shardingSettings"].Arr? then Failure
    else match RequestsOf(settings["shardingSettings"].items)
      case None => Failure
      case Some(requests) => Success(Settings(requests, Some(settings)))
  }

  lemma {:induction false} BadFieldSpoils(items: seq<Json>, k: nat)
    requires k < |items| && FieldOf(items[k]).None?
    ensures FieldsOf(items).None?
  {
    if k < |items| - 1 {
      BadFieldSpoils(items[..|items| - 1], k);
    }
  }

  lemma {:induction false} BadRequestSpoils(items: seq<Json>, k: nat)
    requires k < |items| && RequestOf(items[k]).None?
    ensures RequestsOf(items).None?
  {
    if k < |items| - 1 {
      BadRequestSpoils(items[..|items| - 1], k);
    }
  }

  /** The branches by name: no settings are read as none, anything but a list fails, and so does a list
      with one entry that is malformed. */
  lemma SettingsByCase(settings: map<string, Json>)
    ensures "shardingSettings" !in settings ==> SettingsOf(settings) == Success(Settings([], None))
    ensures "shardingSettings" in settings && !settings["shardingSettings"].Arr? ==> SettingsOf(settings) == Failure
    ensures "shardingSettings" in settings && settings["shardingSettings"].Arr? ==>
              (SettingsOf(settings) == Failure <==>
               exists k :: 0 <= k < |settings["shardingSettings"].items| && Malformed(settings["shardingSettings"].items[k]))
  {
    if "shardingSettings" in settings && settings["shardingSettings"].Arr? {
      var items := settings["shardingSettings"].items;
      forall k | 0 <= k < |items|
        ensures RequestOf(items[k]).None? <==> Malformed(items[k])
      {
        MalformedIff(items[k]);
      }
      RequestsReadIff(items);
    }
  }

  /** An entry needs an object, a name, a non-empty list of named fields, and at most one hashed field. */
  ghost predicate Malformed(item: Json) {
    || !item.Obj?
    || !("collectionName" in item.fields && item.fields["collectionName"].Text? && item.fields["collectionName"].text != "")
    || !("shardKey" in item.fields && item.fields["shardKey"].Arr? && item.fields["shardKey"].items != [])
    || (exists k :: 0 <= k < |item.fields["shardKey"].items| && Unnamed(item.fields["shardKey"].items[k]))
    || (exists i, j :: 0 <= i < j < |item.fields["shardKey"].items| &&
          MarkedHashed(item.fields["shardKey"].items[i]) && MarkedHashed(item.fields["shardKey"].items[j]))
  }

  predicate Unnamed(item: Json) {
    !(item.Obj? && "field" in item.fields && item.fields["field"].Text? && item.fields["field"].text != "")
  }

  /** Only the boolean true marks a field as hashed; any other value counts as not hashed. */
  predicate MarkedHashed(item: Json) {
    item.Obj? && "hashed" in item.fields && item.fields["hashed"] == Bool(true)
  }

  lemma {:induction false} FieldsReadIff(items: seq<Json>)
    ensures FieldsOf(items).Some? <==> forall k :: 0 <= k < |items| ==> !Unnamed(items[k])
    ensures FieldsOf(items).Some? ==> |FieldsOf(items).value| == |items| && forall k :: 0 <= k < |items| ==>
              && items[k].Obj? && "field" in items[k].fields
              && items[k].fields["field"] == Text(FieldsOf(items).value[k].field)
              && (FieldsOf(items).value[k].hashed <==> MarkedHashed(items[k]))
  {
    if items != [] {
      var n := |items| - 1;
      FieldsReadIff(items[..n]);
      assert forall k :: 0 <= k < n ==> items[..n][k] == items[k];
    }
  }

  lemma MalformedIff(item: Json)
    ensures RequestOf(item).None? <==> Malformed(item)
  {
    if item.Obj? && "shardKey" in item.fields && item.fields["shardKey"].Arr? {
      var items := item.fields["shardKey"].items;
      FieldsReadIff(items);
      if FieldsOf(items).Some? {
        AtMostOneHashed(FieldsOf(items).value);
      }
    }
  }

  lemma {:induction false} RequestsReadIff(items: seq<Json>)
    ensures RequestsOf(items).Some? <==> forall k :: 0 <= k < |items| ==> RequestOf(items[k]).Some?
  {
    if items != [] {
      var n := |items| - 1;
      RequestsReadIff(items[..n]);
      assert forall k :: 0 <= k < n ==> items[..n][k] == items[k];
    }
  }

  // ----- the code

  method ParseRecord(item: Json) returns (record: Option<Request>)
    ensures record == RequestOf(item)
  {
    if !item.Obj? {
      return None;
    }
    var setting := item.fields;
    if !("collectionName" in setting && setting["collectionName"].Text? && setting["collectionName"].text != "") {
      return None;
    }
    if !("shardKey" in setting && setting["shardKey"].Arr?) || |setting["shardKey"].items| == 0 {
      return None;
    }
    var rawKeys := setting["shardKey"].items;
    var shardKeys: seq<ShardKeyField> := [];
    var hashedCount := 0;
    for k := 0 to |rawKeys|
      invariant FieldsOf(rawKeys[..k]) == Some(shardKeys)
      invariant hashedCount == HashedFields(shardKeys)
    {
      assert rawKeys[..k + 1][..k] == rawKeys[..k];
      var keyItem := rawKeys[k];
      if !(keyItem.Obj? && "field" in keyItem.fields && keyItem.fields["field"].Text? && keyItem.fields["field"].text != "") {
        BadFieldSpoils(rawKeys, k);
        return None;
      }
      var hashed := "hashed" in keyItem.fields && keyItem.fields["hashed"].Bool? && keyItem.fields["hashed"].value;
      if hashed {
        hashedCount := hashedCount + 1;
      }
      ghost var before := shardKeys;
      shardKeys := shardKeys + [ShardKeyField(keyItem.fields["field"].text, hashed)];
      assert shardKeys[..|shardKeys| - 1] == before;
    }
    assert rawKeys[..|rawKeys|] == rawKeys;
    if hashedCount > 1 {
      return None;
    }
    return Some(Request(setting["collectionName"].text, shardKeys));
  }

  method ParseShardingSettings(settings: map<string, Json>) returns (r: Result<Settings>)
    ensures r == SettingsOf(settings)
  {
    if "shardingSettings" !in settings {
      return Success(Settings([], None));
    }
    var raw := settings["shardingSettings"];
    if !raw.Arr? {
      return Failure;
    }
    var requests: seq<Request> := [];
    for k := 0 to |raw.items|
      invariant RequestsOf(raw.items[..k]) == Some(requests)
    {
      assert raw.items[..k + 1][..k] == raw.items[..k];
      var record := ParseRecord(raw.items[k]);
      if record.None? {
        BadRequestSpoils(raw.items, k);
        return Failure;
      }
      requests := requests + [record.value];
    }
    assert raw.items[..|raw.items|] == raw.items;
    return Success(Settings(requests, Some(settings)));
  }

  // ----- round trip

  /** The requests the parser is meant to let through. */
  predicate Valid(r: Request) {
    r.collection != "" && r.fields != [] && HashedFields(r.fields) <= 1 && forall f :: f in r.fields ==> f.field != ""
  }

  function RenderField(f: ShardKeyField): Json {
    Obj(map["field" := Text(f.field), "hashed" := Bool(f.hashed)])
  }

  function Render(r: Request): Json {
    Obj(map["collectionName" := Text(r.collection),
            "shardKey" := Arr(seq(|r.fields|, i requires 0 <= i < |r.fields| => RenderField(r.fields[i])))])
  }

  function RenderAll(requests: seq<Request>): map<string, Json> {
    map["shardingSettings" := Arr(seq(|requests|, i requires 0 <= i < |requests| => Render(requests[i])))]
  }

  lemma {:induction false} RenderedFields(fields: seq<ShardKeyField>, items: seq<Json>)
    requires |items| == |fields| && forall i :: 0 <= i < |fields| ==> items[i] == RenderField(fields[i])
    requires forall f :: f in fields ==> f.field != ""
    ensures FieldsOf(items) == Some(fields)
  {
    if fields != [] {
      var n := |fields| - 1;
      RenderedFields(fields[..n], items[..n]);
      assert fields == fields[..n] + [fields[n]] && fields[n] in fields;
    }
  }

  lemma RenderedRequest(r: Request)
    requires Valid(r)
    ensures RequestOf(Render(r)) == Some(r)
  {
    var fields := Render(r).fields;
    assert fields["collectionName"] == Text(r.collection);
    RenderedFields(r.fields, fields["shardKey"].items);
    assert FieldsOf(fields["shardKey"].items) == Some(r.fields);
  }

  lemma {:induction false} RenderedRequests(requests: seq<Request>, items: seq<Json>)
    requires |items| == |requests| && forall i :: 0 <= i < |requests| ==> items[i] == Render(requests[i])
    requires forall r :: r in requests ==> Valid(r)
    ensures RequestsOf(items) == Some(requests)
  {
    if requests != [] {
      var n := |requests| - 1;
      assert requests[n] in requests && requests == requests[..n] + [requests[n]];
      RenderedRequest(requests[n]);
      assert RequestOf(items[n]) == Some(requests[n]);
      RenderedRequests(requests[..n], items[..n]);
    }
  }

  /** Every list of valid requests can be sent, and arrives unchanged. */
  lemma RoundTrip(requests: seq<Request>)
    requires forall r :: r in requests ==> Valid(r)
    ensures SettingsOf(RenderAll(requests)) == Success(Settings(requests, Some(RenderAll(requests))))
  {
    RenderedRequests(requests, RenderAll(requests)["shardingSettings"].items);
  }

  lemma {:induction false} FieldsAreNamed(items: seq<Json>)
    requires FieldsOf(items).Some?
    ensures |FieldsOf(items).value| == |items| && forall f :: f in FieldsOf(items).value ==> f.field != ""
  {
    if items != [] {
      FieldsAreNamed(items[..|items| - 1]);
    }
  }

  /** Only valid requests come through, one per entry, so none of them can fail the hashed-field check
      made before sharding. */
  lemma {:induction false} OnlyValidRequests(items: seq<Json>)
    requires RequestsOf(items).Some?
    ensures |RequestsOf(items).value| == |items| && forall r :: r in RequestsOf(items).value ==> Valid(r)
  {
    if items != [] {
      var n := |items| - 1;
      OnlyValidRequests(items[..n]);
      FieldsAreNamed(items[n].fields["shardKey"].items);
    }
  }
}
