/**
 * Tap points and their persistence: `saveClickPoints` / `loadClickPoints`
 * keep the list as a JSON array of `{x, y, interval}` objects under the store
 * key "click_points", and `parseConfig` imports a configuration object whose
 * "click_points" member holds such an array.
 */
module Points {
  import opened Optional
  import opened KotlinText
  import opened Json
  import opened ConfigDatabase

  /** A tap point: screen coordinates (`Int`) and a delay in milliseconds (`Long`). */
  datatype ClickPoint = ClickPoint(x: Int32, y: Int32, interval: Int64)

  /** The store key the list lives under; also the member name of an imported configuration. */
  const CLICK_POINTS_KEY: string := "click_points"

  /** What `loadClickPoints` reads when nothing is stored: the text "[]". */
  const EMPTY_ARRAY: Text := Document(Array([]))

  /** One point as the JSON object `{x, y, interval}`. */
  function Encode(p: ClickPoint): Value {
    Object(map["x" := Number(p.x as int), "y" := Number(p.y as int), "interval" := Number(p.interval as int)])
  }

  function EncodeAll(ps: seq<ClickPoint>): seq<Value> {
    seq(|ps|, i requires 0 <= i < |ps| => Encode(ps[i]))
  }

  /** `getJSONObject(i)` then `getInt("x")`, `getInt("y")`, `getLong("interval")`; any failure fails the element. */
  function Decode(v: Value): (r: Option<ClickPoint>)
    ensures r.Some? ==> && v.Object?
                        && "x" in v.fields && v.fields["x"] == Number(r.value.x as int)
                        && "y" in v.fields && v.fields["y"] == Number(r.value.y as int)
                        && "interval" in v.fields && v.fields["interval"] == Number(r.value.interval as int)
    ensures (v.Object? && GetInt(v.fields, "x").Some? && GetInt(v.fields, "y").Some? &&
             GetLong(v.fields, "interval").Some?) ==> r.Some?
  {
    match AsObject(v)
    case None => None
    case Some(fields) =>
      match (GetInt(fields, "x"), GetInt(fields, "y"), GetLong(fields, "interval"))
      case (Some(x), Some(y), Some(interval)) => Some(ClickPoint(x, y, interval))
      case _ => None
  }

  /**
   * The loop of `loadClickPoints` and `parseConfig`: the first element that
   * fails to decode aborts the whole list.
   */
  function DecodeAll(items: seq<Value>): (r: Option<seq<ClickPoint>>)
    ensures r.Some? <==> forall i :: 0 <= i < |items| ==> Decode(items[i]).Some?
    ensures r.Some? ==> |r.value| == |items| &&
                        forall i :: 0 <= i < |items| ==> Decode(items[i]) == Some(r.value[i])
  {
    if |items| == 0 then Some([])
    else
      assert forall i :: 0 <= i < |items| - 1 ==> items[1..][i] == items[i + 1];
      match Decode(items[0])
      case None => None
      case Some(p) =>
        match DecodeAll(items[1..])
        case None => None
        case Some(rest) => Some([p] + rest)
  }

  /** `saveClickPoints`: the list, as a JSON array, replaces whatever "click_points" held. */
  function Save(store: Store<Text>, ps: seq<ClickPoint>): (r: Store<Text>)
    ensures forall k :: k != CLICK_POINTS_KEY ==> Get(r, k) == Get(store, k)
    ensures CLICK_POINTS_KEY in r
  {
    Set(store, CLICK_POINTS_KEY, Document(Array(EncodeAll(ps))))
  }

  /** `loadClickPoints`: the stored list, or the empty list if anything is missing or malformed. */
  function Load(store: Store<Text>): (r: seq<ClickPoint>)
    ensures CLICK_POINTS_KEY !in store ==> r == []
    ensures r != [] ==> && CLICK_POINTS_KEY in store
                        && store[CLICK_POINTS_KEY].Document?
                        && store[CLICK_POINTS_KEY].value.Array?
                        && |store[CLICK_POINTS_KEY].value.items| == |r|
                        && forall i :: 0 <= i < |r| ==>
                             Decode(store[CLICK_POINTS_KEY].value.items[i]) == Some(r[i])
  {
    var text := match Get(store, CLICK_POINTS_KEY) case Some(t) => t case None => EMPTY_ARRAY;
    match ReadArray(text)
    case None => []
    case Some(items) =>
      match DecodeAll(items)
      case None => []
      case Some(ps) => ps
  }

  /** The points an imported configuration text holds, or None if `parseConfig` would throw. */
  function ConfigPoints(file: Text): Option<seq<ClickPoint>> {
    match ReadObject(file)
    case None => None
    case Some(fields) =>
      match GetArray(fields, CLICK_POINTS_KEY)
      case None => None
      case Some(items) => DecodeAll(items)
  }

  /**
   * `parseConfig`: all or nothing. A configuration that reads completely
   * replaces the stored list and touches no other key; any failure leaves
   * the store exactly as it was.
   */
  function ParseConfig(store: Store<Text>, file: Text): (r: Store<Text>)
    ensures ConfigPoints(file).None? ==> r == store
    ensures ConfigPoints(file).Some? ==>
              Load(r) == ConfigPoints(file).value &&
              forall k :: k != CLICK_POINTS_KEY ==> Get(r, k) == Get(store, k)
  {
    match ConfigPoints(file)
    case None => store
    case Some(ps) =>
      LoadSave(store, ps);
      Save(store, ps)
  }

  // ---------------------------------------------------------------------
  // Properties
  // ---------------------------------------------------------------------

  /** Each point survives encoding and decoding. */
  lemma DecodeEncode(p: ClickPoint)
    ensures Decode(Encode(p)) == Some(p)
  {
    var fields := map["x" := Number(p.x as int), "y" := Number(p.y as int), "interval" := Number(p.interval as int)];
    assert GetInt(fields, "x") == Some(p.x);
    assert GetInt(fields, "y") == Some(p.y);
    assert GetLong(fields, "interval") == Some(p.interval);
  }

  /** Loading a list that was just saved gives it back unchanged. */
  lemma LoadSave(store: Store<Text>, ps: seq<ClickPoint>)
    ensures Load(Save(store, ps)) == ps
  {
    var items := EncodeAll(ps);
    forall i | 0 <= i < |items| ensures Decode(items[i]) == Some(ps[i]) {
      DecodeEncode(ps[i]);
    }
    var r := DecodeAll(items);
    assert r.Some?;
    assert r.value == ps;
  }

  /** Nothing stored under "click_points" loads as the empty list. */
  lemma LoadMissingKey(store: Store<Text>)
    requires CLICK_POINTS_KEY !in store
    ensures Load(store) == []
  {
  }

  /** A stored text that is not a JSON array loads as the empty list. */
  lemma LoadNotAnArray(store: Store<Text>)
    requires CLICK_POINTS_KEY in store
    requires ReadArray(store[CLICK_POINTS_KEY]).None?
    ensures Load(store) == []
  {
  }

  /** One malformed element discards the whole stored list, not just that element. */
  lemma LoadDiscardsWholeList(store: Store<Text>, items: seq<Value>, bad: nat)
    requires Get(store, CLICK_POINTS_KEY) == Some(Document(Array(items)))
    requires bad < |items| && Decode(items[bad]).None?
    ensures Load(store) == []
  {
  }

  /** A stored array whose every element decodes loads as exactly those points, in order. */
  lemma LoadWellFormed(store: Store<Text>, items: seq<Value>)
    requires Get(store, CLICK_POINTS_KEY) == Some(Document(Array(items)))
    requires forall i :: 0 <= i < |items| ==> Decode(items[i]).Some?
    ensures |Load(store)| == |items|
    ensures forall i :: 0 <= i < |items| ==> Decode(items[i]) == Some(Load(store)[i])
  {
  }

  /** The configuration object built from a list imports back as that list. */
  lemma ImportExported(store: Store<Text>, ps: seq<ClickPoint>)
    ensures Load(ParseConfig(store, Document(Object(map[CLICK_POINTS_KEY := Array(EncodeAll(ps))])))) == ps
  {
    var file := Document(Object(map[CLICK_POINTS_KEY := Array(EncodeAll(ps))]));
    forall i | 0 <= i < |ps| ensures Decode(EncodeAll(ps)[i]) == Some(ps[i]) {
      DecodeEncode(ps[i]);
    }
    assert ConfigPoints(file).Some?;
    assert ConfigPoints(file).value == ps;
  }

  /** One malformed element rejects the whole import and the store is untouched. */
  lemma ImportAllOrNothing(store: Store<Text>, fields: map<string, Value>, items: seq<Value>, bad: nat)
    requires CLICK_POINTS_KEY in fields && fields[CLICK_POINTS_KEY] == Array(items)
    requires bad < |items| && Decode(items[bad]).None?
    ensures ParseConfig(store, Document(Object(fields))) == store
  {
  }

  /**
   * Import applies no interval check: a point with a zero (or negative)
   * delay is accepted and stored, unlike a point entered by hand.
   */
  lemma ImportAcceptsZeroInterval(store: Store<Text>)
    ensures var zero := Object(map["x" := Number(10), "y" := Number(20), "interval" := Number(0)]);
            Load(ParseConfig(store, Document(Object(map[CLICK_POINTS_KEY := Array([zero])])))) ==
              [ClickPoint(10, 20, 0)]
  {
    var zero := Object(map["x" := Number(10), "y" := Number(20), "interval" := Number(0)]);
    assert Decode(zero) == Some(ClickPoint(10, 20, 0)) by {
      assert GetInt(zero.fields, "x") == Some(10);
      assert GetInt(zero.fields, "y") == Some(20);
      assert GetLong(zero.fields, "interval") == Some(0);
    }
    var r := DecodeAll([zero]);
    assert [zero][0] == zero;
    assert r.Some? && |r.value| == 1 && r.value[0] == ClickPoint(10, 20, 0);
    assert r.value == [ClickPoint(10, 20, 0)];
  }
}
