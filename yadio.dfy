/**
 * The price-feed record: sixteen USD exchange rates, one per supported fiat
 * currency, its all-zero default, and the serde-derived JSON decoding of the
 * feed's `{ "USD": { <code>: <rate>, ... } }` response. The HTTP request
 * itself is a parameter: the model starts from the response it produced.
 */
module Yadio {
  import opened Wrappers
  import opened Fiat

  /** One snapshot of the feed. Field names and order follow the source record. */
  datatype Prices = Prices(
    ARS: real, BRL: real, CAD: real, CLP: real,
    COP: real, EUR: real, GBP: real, IDR: real,
    MXN: real, MYR: real, NGN: real, PHP: real,
    SGD: real, THB: real, VES: real, VND: real)
  {
    /** The field that holds the rate of currency `c`. */
    function Rate(c: FiatCurrency): real
    {
      match c
      case ARS => ARS case BRL => BRL case CAD => CAD case CLP => CLP
      case COP => COP case EUR => EUR case GBP => GBP case IDR => IDR
      case MXN => MXN case MYR => MYR case NGN => NGN case PHP => PHP
      case SGD => SGD case THB => THB case VES => VES case VND => VND
    }

    /** Assignment to one field of a snapshot (`test_prices.EUR = 0.862166`). */
    function WithRate(c: FiatCurrency, v: real): (p: Prices)
      ensures p.Rate(c) == v
      ensures forall d :: d != c ==> p.Rate(d) == Rate(d)
    {
      match c
      case ARS => this.(ARS := v) case BRL => this.(BRL := v)
      case CAD => this.(CAD := v) case CLP => this.(CLP := v)
      case COP => this.(COP := v) case EUR => this.(EUR := v)
      case GBP => this.(GBP := v) case IDR => this.(IDR := v)
      case MXN => this.(MXN := v) case MYR => this.(MYR := v)
      case NGN => this.(NGN := v) case PHP => this.(PHP := v)
      case SGD => this.(SGD := v) case THB => this.(THB := v)
      case VES => this.(VES := v) case VND => this.(VND := v)
    }
  }

  /** `Prices::default()`: every rate is 0.0. */
  function Default(): (p: Prices)
    ensures forall c :: p.Rate(c) == 0.0
  {
    Prices(0.0, 0.0, 0.0, 0.0, 0.0, 0.0, 0.0, 0.0,
           0.0, 0.0, 0.0, 0.0, 0.0, 0.0, 0.0, 0.0)
  }

  /** The JSON names of the `Prices` fields, in declaration order. */
  function PricesFields(): seq<string>
  {
    seq(Count, i requires 0 <= i < Count => Code(Declared[i]))
  }

  /** Each field is named after the currency at the same position. */
  lemma FieldsAreCurrencyCodes()
    ensures |PricesFields()| == |Declared|
    ensures forall i :: 0 <= i < |PricesFields()| ==> PricesFields()[i] == Code(Declared[i])
  {
  }

  /** Builds a snapshot from sixteen rates given in declaration order. */
  function FromRates(rs: seq<real>): (p: Prices)
    requires |rs| == Count
    ensures forall c :: p.Rate(c) == rs[Index(c)]
  {
    Prices(rs[0], rs[1], rs[2], rs[3], rs[4], rs[5], rs[6], rs[7],
           rs[8], rs[9], rs[10], rs[11], rs[12], rs[13], rs[14], rs[15])
  }

  // ---------------------------------------------------------------------
  // JSON decoding, as serde derives it and serde_json drives it. A struct
  // is read from an object or from an array. The values of an object's
  // fields are type-checked as they are read, unknown keys are skipped, and
  // a missing field is reported only after the whole object, taking the
  // fields in declaration order. An array is read one element per field,
  // in declaration order, and elements left over after the last field are
  // rejected as trailing characters.
  // ---------------------------------------------------------------------

  datatype Json =
    | JNull
    | JBool(b: bool)
    | JNumber(n: real)
    | JString(s: string)
    | JArray(items: seq<Json>)
    | JObject(members: map<string, Json>)

  datatype DecodeError =
    | MissingField(name: string)
    | InvalidType
    | InvalidLength(len: nat)    // the array ended after `len` elements
    | TrailingCharacters         // the array holds more elements than the struct has fields

  /** `struct Currency { USD: Prices }`, the top level of the feed response. */
  datatype Currency = Currency(USD: Prices)

  /**
   * The values of the named fields of an object, in the order of `names`;
   * the first name the object lacks is the missing field.
   */
  function ObjectFields(names: seq<string>, m: map<string, Json>): (r: Result<seq<Json>, DecodeError>)
    ensures r.Success? <==> forall i :: 0 <= i < |names| ==> names[i] in m
    ensures r.Success? ==> |r.value| == |names|
    ensures r.Success? ==> forall i :: 0 <= i < |names| ==> r.value[i] == m[names[i]]
    ensures r.Failure? ==>
              exists k :: 0 <= k < |names| && r.error == MissingField(names[k]) && names[k] !in m &&
                forall i :: 0 <= i < k ==> names[i] in m
  {
    if names == [] then Success([])
    else if names[0] !in m then Failure(MissingField(names[0]))
    else match ObjectFields(names[1..], m)
      case Success(rest) => Success([m[names[0]]] + rest)
      case Failure(e) => Failure(e)
  }

  /** The type check made while an object is read: every field present holds a number. */
  predicate PresentAreNumbers(names: seq<string>, m: map<string, Json>)
  {
    forall i :: 0 <= i < |names| && names[i] in m ==> m[names[i]].JNumber?
  }

  /** The numbers held by a sequence of JSON numbers. */
  function NumberValues(vs: seq<Json>): (rs: seq<real>)
    requires forall i :: 0 <= i < |vs| ==> vs[i].JNumber?
    ensures |rs| == |vs| && forall i :: 0 <= i < |vs| ==> vs[i] == JNumber(rs[i])
  {
    seq(|vs|, i requires 0 <= i < |vs| => vs[i].n)
  }

  /**
   * Reads the first `n` elements of an array as `f64`s, one at a time and in
   * order: the first element that is not a number, or the end of the array,
   * stops the read.
   */
  function ElementNumbers(items: seq<Json>, n: nat): (r: Result<seq<real>, DecodeError>)
    ensures r.Success? <==> n <= |items| && forall i :: 0 <= i < n ==> items[i].JNumber?
    ensures r.Success? ==> |r.value| == n && forall i :: 0 <= i < n ==> items[i] == JNumber(r.value[i])
    ensures r == Failure(InvalidLength(|items|)) <==>
              |items| < n && forall i :: 0 <= i < |items| ==> items[i].JNumber?
    ensures r.Failure? ==> r.error == InvalidLength(|items|) || r.error == InvalidType
  {
    if n == 0 then Success([])
    else match ElementNumbers(items, n - 1)
      case Failure(e) => Failure(e)
      case Success(rs) =>
        if |items| < n then Failure(InvalidLength(n - 1))
        else if !items[n - 1].JNumber? then Failure(InvalidType)
        else Success(rs + [items[n - 1].n])
  }

  /** The derived `Deserialize` of `Prices`: an object keyed by currency code, or an array of sixteen numbers. */
  function DecodePrices(j: Json): (r: Result<Prices, DecodeError>)
    ensures r.Success? ==> j.JObject? || (j.JArray? && |j.items| == Count)
    ensures !j.JObject? && !j.JArray? ==> r == Failure(InvalidType)
    ensures r.Failure? && r.error.MissingField? ==>
              j.JObject? && PresentAreNumbers(PricesFields(), j.members) &&
              r.error.name in PricesFields() && r.error.name !in j.members
    ensures r.Failure? && r.error.InvalidLength? ==> j.JArray? && r.error.len == |j.items| < Count
    ensures r == Failure(TrailingCharacters) ==> j.JArray? && |j.items| > Count
  {
    match j
    case JObject(m) =>
      if !PresentAreNumbers(PricesFields(), m) then Failure(InvalidType)
      else (match ObjectFields(PricesFields(), m)
        case Failure(e) => Failure(e)
        case Success(vs) => Success(FromRates(NumberValues(vs))))
    case JArray(items) =>
      (match ElementNumbers(items, Count)
       case Failure(e) => Failure(e)
       case Success(rs) => if |items| > Count then Failure(TrailingCharacters) else Success(FromRates(rs)))
    case _ => Failure(InvalidType)
  }

  /** The derived `Deserialize` of `Currency`: the one field `USD`, holding a `Prices`. */
  function DecodeCurrency(j: Json): (r: Result<Currency, DecodeError>)
    ensures !j.JObject? && !j.JArray? ==> r == Failure(InvalidType)
    ensures j.JObject? && "USD" !in j.members ==> r == Failure(MissingField("USD"))
    ensures j.JObject? && "USD" in j.members ==>
              && (r.Success? <==> DecodePrices(j.members["USD"]).Success?)
              && (r.Success? ==> DecodePrices(j.members["USD"]) == Success(r.value.USD))
              && (r.Failure? ==> DecodePrices(j.members["USD"]) == Failure(r.error))
    ensures j.JArray? && j.items == [] ==> r == Failure(InvalidLength(0))
    ensures j.JArray? && j.items != [] && DecodePrices(j.items[0]).Failure? ==>
              r == Failure(DecodePrices(j.items[0]).error)
    ensures j.JArray? && |j.items| > 1 && DecodePrices(j.items[0]).Success? ==>
              r == Failure(TrailingCharacters)
    ensures j.JArray? && |j.items| == 1 && DecodePrices(j.items[0]).Success? ==>
              r == Success(Currency(DecodePrices(j.items[0]).value))
  {
    match j
    case JObject(m) =>
      if "USD" !in m then Failure(MissingField("USD"))
      else (match DecodePrices(m["USD"])
        case Failure(e) => Failure(e)
        case Success(p) => Success(Currency(p)))
    case JArray(items) =>
      if items == [] then Failure(InvalidLength(0))
      else (match DecodePrices(items[0])
        case Failure(e) => Failure(e)
        case Success(p) => if |items| > 1 then Failure(TrailingCharacters) else Success(Currency(p)))
    case _ => Failure(InvalidType)
  }

  /** The derived `Serialize` of `Prices`: each rate under its currency's code, and no other key. */
  function EncodePrices(p: Prices): (r: Json)
    ensures r.JObject?
    ensures forall c :: Code(c) in r.members && r.members[Code(c)] == JNumber(p.Rate(c))
    ensures forall k :: k in r.members ==> exists c :: Code(c) == k
  {
    EveryCurrencyDeclared();
    CodeInjective();
    JObject(map c | c in Declared :: Code(c) := JNumber(p.Rate(c)))
  }

  /** The derived `Serialize` of `Currency`; deserialising its output gives `c` back. */
  function EncodeCurrency(c: Currency): (r: Json)
    ensures DecodeCurrency(r) == Success(c)
  {
    DecodeEncodePrices(c.USD);
    JObject(map["USD" := EncodePrices(c.USD)])
  }

  /**
   * No partial record: an object decodes exactly when it holds a number
   * under every currency code, and then each rate is that number.
   */
  lemma DecodePricesObject(m: map<string, Json>)
    ensures DecodePrices(JObject(m)).Success? <==>
              forall c :: Code(c) in m && m[Code(c)].JNumber?
    ensures DecodePrices(JObject(m)).Success? ==>
              forall c :: DecodePrices(JObject(m)).value.Rate(c) == m[Code(c)].n
  {
    FieldsAreCurrencyCodes();
    var names := PricesFields();
    var r := DecodePrices(JObject(m));
    if forall c :: Code(c) in m && m[Code(c)].JNumber? {
      forall i | 0 <= i < |names| ensures names[i] in m && m[names[i]].JNumber? {
        assert names[i] == Code(Declared[i]);
      }
      assert PresentAreNumbers(names, m);
      var vs := ObjectFields(names, m).value;
      assert r == Success(FromRates(NumberValues(vs)));
      forall c ensures r.value.Rate(c) == m[Code(c)].n {
        IndexOfDeclared(c);
        assert names[Index(c)] == Code(c);
        assert vs[Index(c)] == m[Code(c)];
      }
    } else {
      var c :| !(Code(c) in m && m[Code(c)].JNumber?);
      IndexOfDeclared(c);
      assert names[Index(c)] == Code(c);
      assert !PresentAreNumbers(names, m) || ObjectFields(names, m).Failure?;
    }
  }

  /**
   * Which defect of an object is reported: a field holding a non-number
   * wherever it stands, otherwise the first absent field in declaration order.
   */
  lemma DecodePricesObjectErrors(m: map<string, Json>)
    ensures DecodePrices(JObject(m)) == Failure(InvalidType) <==>
              exists c :: Code(c) in m && !m[Code(c)].JNumber?
    ensures DecodePrices(JObject(m)).Failure? && DecodePrices(JObject(m)).error != InvalidType ==>
              exists c :: DecodePrices(JObject(m)).error == MissingField(Code(c)) && Code(c) !in m &&
                forall d :: Index(d) < Index(c) ==> Code(d) in m
  {
    FieldsAreCurrencyCodes();
    DeclaredIsEnumeration();
    var r := DecodePrices(JObject(m));
    if exists c :: Code(c) in m && !m[Code(c)].JNumber? {
      var c :| Code(c) in m && !m[Code(c)].JNumber?;
      IndexOfDeclared(c);
      assert PricesFields()[Index(c)] == Code(c);
    }
    if r == Failure(InvalidType) {
      var i :| 0 <= i < |PricesFields()| && PricesFields()[i] in m && !m[PricesFields()[i]].JNumber?;
      assert PricesFields()[i] == Code(Declared[i]);
    }
    if r.Failure? && r.error != InvalidType {
      var k :| 0 <= k < |PricesFields()| && r.error == MissingField(PricesFields()[k]) && PricesFields()[k] !in m &&
               forall i :: 0 <= i < k ==> PricesFields()[i] in m;
      var c := Declared[k];
      forall d | Index(d) < Index(c) ensures Code(d) in m {
        IndexOfDeclared(d);
        assert PricesFields()[Index(d)] == Code(d);
      }
    }
  }

  /**
   * Which arrays decode, and which defect is reported: elements are read in
   * declaration order, so the first non-number before the sixteenth element
   * is a type error, a shorter all-number array is a length error, and a
   * longer one is rejected for its trailing elements.
   */
  lemma DecodePricesArray(items: seq<Json>)
    ensures DecodePrices(JArray(items)).Success? <==>
              |items| == Count && forall i :: 0 <= i < |items| ==> items[i].JNumber?
    ensures DecodePrices(JArray(items)).Success? ==>
              forall c :: JNumber(DecodePrices(JArray(items)).value.Rate(c)) == items[Index(c)]
    ensures DecodePrices(JArray(items)) == Failure(InvalidLength(|items|)) <==>
              |items| < Count && forall i :: 0 <= i < |items| ==> items[i].JNumber?
    ensures DecodePrices(JArray(items)) == Failure(TrailingCharacters) <==>
              |items| > Count && forall i :: 0 <= i < Count ==> items[i].JNumber?
    ensures DecodePrices(JArray(items)).Failure? ==>
              DecodePrices(JArray(items)).error in {InvalidType, TrailingCharacters, InvalidLength(|items|)}
  {
  }

  /** A non-number first element is reported as such, whatever the array's length. */
  lemma FirstElementCheckedFirst(x: Json, rest: seq<Json>)
    requires !x.JNumber?
    ensures DecodePrices(JArray([x] + rest)) == Failure(InvalidType)
  {
    var items := [x] + rest;
    DecodePricesArray(items);
    assert items[0] == x;
  }

  /**
   * The first element of a `Currency` array is decoded before the array's
   * length is checked: an empty first object reports `ARS` missing even when
   * further elements follow.
   */
  lemma ElementErrorBeforeTrailing(rest: seq<Json>)
    ensures DecodeCurrency(JArray([JObject(map[])] + rest)) == Failure(MissingField("ARS"))
  {
    var empty: map<string, Json> := map[];
    DecodePricesObjectErrors(empty);
    var e := DecodePrices(JObject(empty)).error;
    var c :| e == MissingField(Code(c)) && forall d :: Index(d) < Index(c) ==> Code(d) in empty;
    assert Index(ARS) < Index(c) ==> Code(ARS) in empty;
    assert c == ARS;
  }

  /** Two snapshots that agree on every rate are the same snapshot. */
  lemma RatesDetermine(p: Prices, q: Prices)
    requires forall c :: p.Rate(c) == q.Rate(c)
    ensures p == q
  {
    assert p.Rate(ARS) == q.Rate(ARS) && p.Rate(BRL) == q.Rate(BRL);
    assert p.Rate(CAD) == q.Rate(CAD) && p.Rate(CLP) == q.Rate(CLP);
    assert p.Rate(COP) == q.Rate(COP) && p.Rate(EUR) == q.Rate(EUR);
    assert p.Rate(GBP) == q.Rate(GBP) && p.Rate(IDR) == q.Rate(IDR);
    assert p.Rate(MXN) == q.Rate(MXN) && p.Rate(MYR) == q.Rate(MYR);
    assert p.Rate(NGN) == q.Rate(NGN) && p.Rate(PHP) == q.Rate(PHP);
    assert p.Rate(SGD) == q.Rate(SGD) && p.Rate(THB) == q.Rate(THB);
    assert p.Rate(VES) == q.Rate(VES) && p.Rate(VND) == q.Rate(VND);
  }

  /** Serialising then deserialising a snapshot gives it back. */
  lemma DecodeEncodePrices(p: Prices)
    ensures DecodePrices(EncodePrices(p)) == Success(p)
  {
    var m := EncodePrices(p).members;
    DecodePricesObject(m);
    RatesDetermine(DecodePrices(EncodePrices(p)).value, p);
  }

  // ---------------------------------------------------------------------
  // get_yadio_prices, with the HTTP exchange replaced by its outcome.
  // ---------------------------------------------------------------------

  /** What the HTTP exchange can fail with before decoding starts. */
  datatype Error =
    | RequestFailed      // connection, timeout or other transport failure
    | MalformedBody      // the body is not JSON text
    | Schema(e: DecodeError)

  /** `get_yadio_prices`, given the body the request returned (or its failure). */
  function GetYadioPrices(response: Result<Json, Error>): (r: Result<Prices, Error>)
    ensures response.Failure? ==> r == Failure(response.error)
    ensures response.Success? && r.Success? ==>
              DecodeCurrency(response.value) == Success(Currency(r.value))
    ensures response.Success? ==> (r.Success? <==> DecodeCurrency(response.value).Success?)
  {
    match response
    case Failure(e) => Failure(e)
    case Success(body) =>
      match DecodeCurrency(body)
      case Success(currency) => Success(currency.USD)
      case Failure(e) => Failure(Schema(e))
  }

  /** `main`'s fallback: the fetched snapshot, or the all-zero default on any error. */
  function PricesOrDefault(fetched: Result<Prices, Error>): (p: Prices)
    ensures fetched.Failure? ==> forall c :: p.Rate(c) == 0.0
    ensures fetched.Success? ==> p == fetched.value
  {
    match fetched
    case Success(prices) => prices
    case Failure(_) => Default()
  }

  /** The snapshot of the unit test: a default with EUR, GBP and SGD set. */
  lemma PartialSnapshotKeepsZeros()
    ensures var p := Default().WithRate(EUR, 0.862166).WithRate(GBP, 0.746083).WithRate(SGD, 1.290295);
            p.ARS == 0.0 && p.BRL == 0.0 && p.EUR > 0.0 && p.GBP > 0.0 && p.SGD > 0.0 &&
            forall c :: c !in {EUR, GBP, SGD} ==> p.Rate(c) == 0.0
  {
  }
}
