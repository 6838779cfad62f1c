/**
 * The JSON tree the serializer reads and writes, the single error kind a
 * failed read raises, and the typed accessors of a JSON object
 * (`getString`, `getInt`, `getBoolean`, `getJSONObject`, `getJSONArray`,
 * `has`). Accessors are strict: a value of the wrong type is an error.
 */
module Json {
  import opened Wrappers

  datatype Json =
    | JNull
    | JBool(b: bool)
    | JInt(n: int)
    | JString(s: string)
    | JArray(items: seq<Json>)
    | JObject(fields: map<string, Json>)

  /** A JSON object: an unordered map from key to value. */
  type Object = map<string, Json>

  /** What `UnknownFormatException` wraps: a structural complaint naming the field, or the reason a value was refused. */
  datatype FormatError =
    | MissingKey(key: string)
    | WrongType(key: string)
    | ElementNotAnObject
    | UnknownVersion(version: int)
    | UnparsableDate(text: string)

  /** The result of every deserializer: the value, or `UnknownFormatException`. */
  type Parsed<T> = Result<T, FormatError>

  function GetString(o: Object, key: string): Parsed<string> {
    if key !in o then Failure(MissingKey(key))
    else if o[key].JString? then Success(o[key].s)
    else Failure(WrongType(key))
  }

  function GetBool(o: Object, key: string): Parsed<bool> {
    if key !in o then Failure(MissingKey(key))
    else if o[key].JBool? then Success(o[key].b)
    else Failure(WrongType(key))
  }

  /** `getInt` and `getLong`: integer widths are not modelled. */
  function GetInt(o: Object, key: string): Parsed<int> {
    if key !in o then Failure(MissingKey(key))
    else if o[key].JInt? then Success(o[key].n)
    else Failure(WrongType(key))
  }

  function GetObject(o: Object, key: string): Parsed<Object> {
    if key !in o then Failure(MissingKey(key))
    else if o[key].JObject? then Success(o[key].fields)
    else Failure(WrongType(key))
  }

  function GetArray(o: Object, key: string): Parsed<seq<Json>> {
    if key !in o then Failure(MissingKey(key))
    else if o[key].JArray? then Success(o[key].items)
    else Failure(WrongType(key))
  }

  /** `has(key)` then `getString(key)`: an absent key gives an absent value. */
  function GetOptionalString(o: Object, key: string): Parsed<Option<string>> {
    if key !in o then Success(None)
    else if o[key].JString? then Success(Some(o[key].s))
    else Failure(WrongType(key))
  }

  /** `JSONArray.getJSONObject(i)`: the element must be an object. */
  function AsObject(j: Json): Parsed<Object> {
    if j.JObject? then Success(j.fields) else Failure(ElementNotAnObject)
  }

  /** `put(key, value)` where a `null` value leaves the key out, as org.json does. */
  function PutOptionalString(o: Object, key: string, value: Option<string>): Object {
    if value.Some? then o[key := JString(value.value)] else o - {key}
  }

  /**
   * Decodes the elements of a JSON array in order with `decode`: the decoded
   * list, or the error of the first element that fails.
   */
  function DecodeEach<T>(items: seq<Json>, decode: Json -> Parsed<T>): Parsed<seq<T>> {
    if |items| == 0 then Success([])
    else
      var init :- DecodeEach(items[..|items| - 1], decode);
      var last :- decode(items[|items| - 1]);
      Success(init + [last])
  }

  /** Encodes each element of a list in order. */
  function EncodeEach<T>(xs: seq<T>, encode: T -> Json): seq<Json> {
    seq(|xs|, i requires 0 <= i < |xs| => encode(xs[i]))
  }

  /** Decoding succeeds iff every element decodes, and then yields one value per element, in order. */
  lemma {:induction false} DecodeEachSuccess<T>(items: seq<Json>, decode: Json -> Parsed<T>)
    ensures DecodeEach(items, decode).Success?
        <==> forall i :: 0 <= i < |items| ==> decode(items[i]).Success?
    ensures DecodeEach(items, decode).Success? ==>
        var xs := DecodeEach(items, decode).value;
        |xs| == |items| && forall i :: 0 <= i < |items| ==> decode(items[i]) == Success(xs[i])
  {
    if |items| > 0 {
      var init := items[..|items| - 1];
      DecodeEachSuccess(init, decode);
      assert forall i :: 0 <= i < |init| ==> init[i] == items[i];
    }
  }

  /** The first element that fails to decode decides the error of the whole list. */
  lemma {:induction false} DecodeEachStops<T>(items: seq<Json>, i: nat, decode: Json -> Parsed<T>)
    requires i < |items|
    requires DecodeEach(items[..i], decode).Success?
    requires decode(items[i]).Failure?
    ensures DecodeEach(items, decode) == Failure(decode(items[i]).error)
    decreases |items|
  {
    if i < |items| - 1 {
      var init := items[..|items| - 1];
      assert init[..i] == items[..i];
      DecodeEachStops(init, i, decode);
    } else {
      assert items[..|items| - 1] == items[..i];
    }
  }

  /** One more decoded element extends the decoded prefix. */
  lemma DecodeEachStep<T>(items: seq<Json>, i: nat, decode: Json -> Parsed<T>)
    requires i < |items|
    requires DecodeEach(items[..i], decode).Success?
    requires decode(items[i]).Success?
    ensures DecodeEach(items[..i + 1], decode)
        == Success(DecodeEach(items[..i], decode).value + [decode(items[i]).value])
  {
    assert items[..i + 1][..i] == items[..i];
  }

  /** Encoding then decoding a list gives back, element by element, what each element decodes to. */
  lemma {:induction false} DecodeEachEncode<S, T>(xs: seq<S>, ys: seq<T>, encode: S -> Json, decode: Json -> Parsed<T>)
    requires |xs| == |ys|
    requires forall i :: 0 <= i < |xs| ==> decode(encode(xs[i])) == Success(ys[i])
    ensures DecodeEach(EncodeEach(xs, encode), decode) == Success(ys)
  {
    if |xs| > 0 {
      var n := |xs| - 1;
      DecodeEachEncode(xs[..n], ys[..n], encode, decode);
      assert EncodeEach(xs, encode)[..n] == EncodeEach(xs[..n], encode);
      assert ys[..n] + [ys[n]] == ys;
    }
  }

  /** Decoding a concatenation decodes the first part, then the second; the first failure wins. */
  lemma {:induction false} DecodeEachAppend<T>(a: seq<Json>, b: seq<Json>, decode: Json -> Parsed<T>)
    ensures DecodeEach(a + b, decode) ==
      (match DecodeEach(a, decode)
       case Failure(e) => Failure(e)
       case Success(x) =>
         match DecodeEach(b, decode)
         case Failure(e) => Failure(e)
         case Success(y) => Success(x + y))
    decreases |b|
  {
    if |b| == 0 {
      assert a + b == a;
      if DecodeEach(a, decode).Success? {
        assert DecodeEach(a, decode).value + [] == DecodeEach(a, decode).value;
      }
    } else {
      var n := |b| - 1;
      var whole := a + b;
      DecodeEachAppend(a, b[..n], decode);
      assert whole[..|whole| - 1] == a + b[..n];
      assert whole[|whole| - 1] == b[n];
      var front := DecodeEach(a + b[..n], decode);
      assert DecodeEach(whole, decode) ==
        (if front.Failure? then Failure(front.error)
         else if decode(b[n]).Failure? then Failure(decode(b[n]).error)
         else Success(front.value + [decode(b[n]).value]));
      if DecodeEach(a, decode).Success? && DecodeEach(b[..n], decode).Success? {
        var x := DecodeEach(a, decode).value;
        var y := DecodeEach(b[..n], decode).value;
        if decode(b[n]).Success? {
          assert x + y + [decode(b[n]).value] == x + (y + [decode(b[n]).value]);
        }
      }
    }
  }
}
