/** The record schema: `ProbabilityData` and `ProboEvent` (probo.py:9-33) and
    what `ProboEvent.model_validate` does with one raw record (a JSON object,
    the only kind of record whose rejection the source survives): every mandatory
    field present with the declared kind, the optional fields filled in with
    their defaults, both price strings passed through `clean_price`, and any
    key the schema does not name ignored. */
module Schema {
  import opened Wrappers
  import opened Json
  import opened Price

  datatype ProbabilityData = ProbabilityData(text: string, value: int)

  /** A validated event; `eventType` is the field the source calls `type`. */
  datatype Event = Event(
    id: int,
    name: string,
    displayName: string,
    imageUrl: string,
    yesPrice: string,
    noPrice: string,
    tradingInfo: string,
    tradersCountNumeric: int,
    expiryDate: string,
    expiryDateTimeStamp: string,
    probabilityData: ProbabilityData,
    eventType: string,
    isEventActive: bool,
    availableYesPrice: Option<real>,
    availableNoPrice: Option<real>)

  const DefaultType: string := "probabilistic"
  const DefaultActive: bool := true

  /** The keys a record must carry. */
  const MandatoryKeys: set<string> := {
    "id", "name", "display_name", "image_url", "yes_price", "no_price",
    "trading_info", "traders_count_numeric", "expiry_date",
    "expiry_date_time_stamp", "probability_data"
  }

  /** The keys that may be absent and then take their default. */
  const DefaultedKeys: set<string> := {
    "type", "is_event_active", "available_yes_price", "available_no_price"
  }

  // ---- reference definition of an acceptable record -------------------------

  predicate HasString(m: map<string, Json>, key: string) {
    key in m && m[key].JString?
  }

  predicate HasInt(m: map<string, Json>, key: string) {
    key in m && m[key].JInt?
  }

  predicate StringOrAbsent(m: map<string, Json>, key: string) {
    key !in m || m[key].JString?
  }

  predicate BoolOrAbsent(m: map<string, Json>, key: string) {
    key !in m || m[key].JBool?
  }

  /** `Optional[float]`: absent, null, or a number (an integer is accepted). */
  predicate NumberOrNull(m: map<string, Json>, key: string) {
    key !in m || m[key].JNull? || m[key].JInt? || m[key].JFloat?
  }

  predicate ProbabilityConforms(v: Json) {
    v.JObject? && HasString(v.fields, "text") && HasInt(v.fields, "value")
  }

  /** The raw record has the shape `ProboEvent` declares. */
  predicate Conforms(m: map<string, Json>) {
    && HasInt(m, "id")
    && HasString(m, "name")
    && HasString(m, "display_name")
    && HasString(m, "image_url")
    && HasString(m, "yes_price")
    && HasString(m, "no_price")
    && HasString(m, "trading_info")
    && HasInt(m, "traders_count_numeric")
    && HasString(m, "expiry_date")
    && HasString(m, "expiry_date_time_stamp")
    && "probability_data" in m && ProbabilityConforms(m["probability_data"])
    && StringOrAbsent(m, "type")
    && BoolOrAbsent(m, "is_event_active")
    && NumberOrNull(m, "available_yes_price")
    && NumberOrNull(m, "available_no_price")
  }

  // ---- field extraction, one step per declared field -------------------------

  function StringField(m: map<string, Json>, key: string): Option<string> {
    if key in m && m[key].JString? then Some(m[key].s) else None
  }

  function IntField(m: map<string, Json>, key: string): Option<int> {
    if key in m && m[key].JInt? then Some(m[key].i) else None
  }

  function StringFieldOr(m: map<string, Json>, key: string, default: string): Option<string> {
    if key !in m then Some(default)
    else if m[key].JString? then Some(m[key].s)
    else None
  }

  function BoolFieldOr(m: map<string, Json>, key: string, default: bool): Option<bool> {
    if key !in m then Some(default)
    else if m[key].JBool? then Some(m[key].b)
    else None
  }

  /** Outer None: rejected; `Some(None)`: absent or null, the declared default. */
  function OptionalFloatField(m: map<string, Json>, key: string): Option<Option<real>> {
    if key !in m then Some(None)
    else match m[key]
      case JNull => Some(None)
      case JInt(i) => Some(Some(i as real))
      case JFloat(x) => Some(Some(x))
      case _ => None
  }

  function ValidateProbability(v: Json): Option<ProbabilityData> {
    if !v.JObject? then None
    else
      var text :- StringField(v.fields, "text");
      var value :- IntField(v.fields, "value");
      Some(ProbabilityData(text, value))
  }

  /** `ProboEvent.model_validate(record)` on a JSON object: None stands for
      the ValidationError. */
  function ValidateRecord(m: map<string, Json>): (r: Option<Event>)
    ensures r.Some? <==> Conforms(m)
  {
    var id :- IntField(m, "id");
    var name :- StringField(m, "name");
    var displayName :- StringField(m, "display_name");
    var imageUrl :- StringField(m, "image_url");
    var yesPrice :- StringField(m, "yes_price");
    var noPrice :- StringField(m, "no_price");
    var tradingInfo :- StringField(m, "trading_info");
    var tradersCount :- IntField(m, "traders_count_numeric");
    var expiryDate :- StringField(m, "expiry_date");
    var expiryStamp :- StringField(m, "expiry_date_time_stamp");
    var probability :- if "probability_data" in m then ValidateProbability(m["probability_data"]) else None;
    var eventType :- StringFieldOr(m, "type", DefaultType);
    var active :- BoolFieldOr(m, "is_event_active", DefaultActive);
    var availableYes :- OptionalFloatField(m, "available_yes_price");
    var availableNo :- OptionalFloatField(m, "available_no_price");
    Some(Event(id, name, displayName, imageUrl, CleanPrice(yesPrice), CleanPrice(noPrice),
               tradingInfo, tradersCount, expiryDate, expiryStamp, probability,
               eventType, active, availableYes, availableNo))
  }

  // ---- properties ------------------------------------------------------------

  /** A validated event carries the record's values unchanged, except the
      two prices, which are cleaned, and the defaulted fields, which take
      their defaults when the record leaves them out. */
  lemma ValidatedEventFields(raw: map<string, Json>)
    requires Conforms(raw)
    ensures ValidateRecord(raw).Some?
    ensures var e, m := ValidateRecord(raw).value, raw;
      && e.id == m["id"].i
      && e.name == m["name"].s
      && e.displayName == m["display_name"].s
      && e.imageUrl == m["image_url"].s
      && e.tradingInfo == m["trading_info"].s
      && e.tradersCountNumeric == m["traders_count_numeric"].i
      && e.expiryDate == m["expiry_date"].s
      && e.expiryDateTimeStamp == m["expiry_date_time_stamp"].s
      && e.probabilityData.text == m["probability_data"].fields["text"].s
      && e.probabilityData.value == m["probability_data"].fields["value"].i
    ensures var e, m := ValidateRecord(raw).value, raw;
      && e.yesPrice == CleanPrice(m["yes_price"].s)
      && e.noPrice == CleanPrice(m["no_price"].s)
    ensures var e, m := ValidateRecord(raw).value, raw;
      && e.eventType == (if "type" in m then m["type"].s else DefaultType)
      && e.isEventActive == (if "is_event_active" in m then m["is_event_active"].b else DefaultActive)
      && (e.availableYesPrice.None? <==> "available_yes_price" !in m || m["available_yes_price"].JNull?)
      && (e.availableNoPrice.None? <==> "available_no_price" !in m || m["available_no_price"].JNull?)
  {
  }

  /** A record that leaves every defaulted field out is given the declared
      defaults. */
  lemma DefaultsFilledIn(raw: map<string, Json>)
    requires Conforms(raw)
    requires forall k :: k in DefaultedKeys ==> k !in raw
    ensures ValidateRecord(raw).Some?
    ensures ValidateRecord(raw).value.eventType == "probabilistic"
    ensures ValidateRecord(raw).value.isEventActive
    ensures ValidateRecord(raw).value.availableYesPrice == None
    ensures ValidateRecord(raw).value.availableNoPrice == None
  {
    assert "type" in DefaultedKeys && "is_event_active" in DefaultedKeys;
    assert "available_yes_price" in DefaultedKeys && "available_no_price" in DefaultedKeys;
  }

  /** A record lacking any mandatory key is rejected. */
  lemma MissingMandatoryRejected(raw: map<string, Json>, key: string)
    requires key in MandatoryKeys
    requires key !in raw
    ensures ValidateRecord(raw) == None
  {
  }

  /** Keys outside the schema do not influence validation. */
  lemma ExtraKeysIgnored(raw: map<string, Json>, key: string, v: Json)
    requires key !in MandatoryKeys && key !in DefaultedKeys
    ensures ValidateRecord(raw[key := v]) == ValidateRecord(raw)
  {
    var m := raw;
    var m' := m[key := v];
    assert IntField(m', "id") == IntField(m, "id");
    assert IntField(m', "traders_count_numeric") == IntField(m, "traders_count_numeric");
    assert StringField(m', "name") == StringField(m, "name");
    assert StringField(m', "display_name") == StringField(m, "display_name");
    assert StringField(m', "image_url") == StringField(m, "image_url");
    assert StringField(m', "yes_price") == StringField(m, "yes_price");
    assert StringField(m', "no_price") == StringField(m, "no_price");
    assert StringField(m', "trading_info") == StringField(m, "trading_info");
    assert StringField(m', "expiry_date") == StringField(m, "expiry_date");
    assert StringField(m', "expiry_date_time_stamp") == StringField(m, "expiry_date_time_stamp");
    assert ("probability_data" in m') == ("probability_data" in m);
    assert "probability_data" in m ==> m'["probability_data"] == m["probability_data"];
    assert StringFieldOr(m', "type", DefaultType) == StringFieldOr(m, "type", DefaultType);
    assert BoolFieldOr(m', "is_event_active", DefaultActive) == BoolFieldOr(m, "is_event_active", DefaultActive);
    assert OptionalFloatField(m', "available_yes_price") == OptionalFloatField(m, "available_yes_price");
    assert OptionalFloatField(m', "available_no_price") == OptionalFloatField(m, "available_no_price");
  }

  /** A price written as the prefix followed by a clean amount is stored as
      that amount. */
  lemma ValidatedPricesStripped(raw: map<string, Json>, yes: string, no: string)
    requires Conforms(raw)
    requires raw["yes_price"] == JString(CurrencyPrefix + yes)
    requires raw["no_price"] == JString(CurrencyPrefix + no)
    requires forall j :: !OccursAt(yes, j)
    requires forall j :: !OccursAt(no, j)
    ensures ValidateRecord(raw).Some?
    ensures ValidateRecord(raw).value.yesPrice == yes
    ensures ValidateRecord(raw).value.noPrice == no
  {
    CleanPriceStripsPrefix(yes);
    CleanPriceStripsPrefix(no);
  }
}
