/**
 * `Vector3Converter`, the JSON converter that writes a vector as the single string
 * value `"x,y,z"` and reads it back.
 */
module JsonConverters {
  import opened Wrappers
  import opened Host
  import SodaliteUtils

  /**
   * The current culture's `float.ToString()` and `float.Parse`, which the converter
   * uses but does not define; `parse` is None where `float.Parse` throws.
   */
  datatype NumberFormat = NumberFormat(format: Float -> string, parse: string -> Option<Float>)

  /** The exceptions the converter throws. */
  datatype JsonError =
    | ExpectedVector3                 // JsonSerializationException("Expected Vector3 object value")
    | ExpectedString                  // JsonSerializationException("Expected value to be a string")
    | NotANumber(text: string)        // FormatException from float.Parse
    | ExpectedLength3(length: nat)    // JsonSerializationException("Expected array to be of length 3")

  /** The `object value` handed to `WriteJson`. */
  datatype Boxed = BoxedVector3(vector: Vec3) | BoxedOther

  /** The token a `JsonReader` stands on when `ReadJson` is called. */
  datatype Token = StringToken(text: string) | OtherToken

  /** A `Type` handed to `CanConvert`. */
  datatype ClrType = Vector3Type | OtherType(name: string)

  /** The text of a vector: its three components, formatted, joined by commas. */
  function VectorText(v: Vec3, nf: NumberFormat): string
  {
    nf.format(v.x) + "," + nf.format(v.y) + "," + nf.format(v.z)
  }

  /** `WriteJson`: the string value it writes, or the exception for anything but a vector. */
  function WriteJson(value: Boxed, nf: NumberFormat): (r: Result<string, JsonError>)
    ensures r.Err? <==> value.BoxedOther?
    ensures r.Err? ==> r.error == ExpectedVector3
    ensures r.Ok? ==> r.value == SodaliteUtils.Join([nf.format(value.vector.x), nf.format(value.vector.y), nf.format(value.vector.z)], ',')
  {
    match value
    case BoxedOther => Err(ExpectedVector3)
    case BoxedVector3(v) => JoinThree(nf.format(v.x), nf.format(v.y), nf.format(v.z)); Ok(VectorText(v, nf))
  }

  /** Three parts joined by commas. */
  lemma JoinThree(a: string, b: string, c: string)
    ensures SodaliteUtils.Join([a, b, c], ',') == a + "," + b + "," + c
  {
    assert [a, b, c][1..] == [b, c];
    assert [b, c][1..] == [c];
    assert SodaliteUtils.Join([b, c], ',') == b + [','] + c;
    assert SodaliteUtils.Join([a, b, c], ',') == a + [','] + (b + [','] + c);
    assert a + [','] + (b + [','] + c) == a + "," + b + "," + c;
  }

  /** `Select(float.Parse).ToArray()`: every part parsed in order; the first that fails throws. */
  function ParseAll(parts: seq<string>, nf: NumberFormat): (r: Result<seq<Float>, JsonError>)
    ensures r.Ok? <==> forall i :: 0 <= i < |parts| ==> nf.parse(parts[i]).Some?
    ensures r.Ok? ==> |r.value| == |parts| && forall i :: 0 <= i < |parts| ==> nf.parse(parts[i]) == Some(r.value[i])
    ensures r.Err? ==> exists i :: 0 <= i < |parts| && nf.parse(parts[i]).None? && r.error == NotANumber(parts[i])
                                   && forall j :: 0 <= j < i ==> nf.parse(parts[j]).Some?
  {
    if parts == [] then Ok([])
    else
      match nf.parse(parts[0])
      case None => Err(NotANumber(parts[0]))
      case Some(f) =>
        match ParseAll(parts[1..], nf)
        case Err(e) =>
          assert forall j :: 1 <= j < |parts| ==> parts[j] == parts[1..][j - 1];
          Err(e)
        case Ok(rest) =>
          assert forall j :: 1 <= j < |parts| ==> parts[j] == parts[1..][j - 1];
          Ok([f] + rest)
  }

  /**
   * `ReadJson`: a string token is split at every comma and each part parsed; only
   * then is the number of parts checked.
   */
  function ReadJson(token: Token, nf: NumberFormat): (r: Result<Vec3, JsonError>)
    ensures token.OtherToken? ==> r == Err(ExpectedString)
    ensures token.StringToken? ==>
              var parts := SodaliteUtils.Split(token.text, ',');
              (r.Ok? <==> |parts| == 3 && forall i :: 0 <= i < 3 ==> nf.parse(parts[i]).Some?)
              && (r.Ok? ==> r.value == Vec3(nf.parse(parts[0]).value, nf.parse(parts[1]).value, nf.parse(parts[2]).value))
              && (r.Err? && (forall i :: 0 <= i < |parts| ==> nf.parse(parts[i]).Some?) ==> r.error == ExpectedLength3(|parts|))
  {
    match token
    case OtherToken => Err(ExpectedString)
    case StringToken(text) =>
      match ParseAll(SodaliteUtils.Split(text, ','), nf)
      case Err(e) => Err(e)
      case Ok(values) =>
        if |values| != 3 then Err(ExpectedLength3(|values|))
        else Ok(Vec3(values[0], values[1], values[2]))
  }

  /** `CanConvert`: only the vector type. */
  function CanConvert(objectType: ClrType): (b: bool)
    ensures b <==> objectType == Vector3Type
  {
    objectType.Vector3Type?
  }

  /** A component whose text parses back to itself and holds no comma. */
  predicate Faithful(nf: NumberFormat, f: Float)
  {
    nf.parse(nf.format(f)) == Some(f) && ',' !in nf.format(f)
  }

  /** What is written is read back as the same vector, when each component's text is faithful. */
  lemma ReadAfterWrite(v: Vec3, nf: NumberFormat)
    requires Faithful(nf, v.x) && Faithful(nf, v.y) && Faithful(nf, v.z)
    ensures WriteJson(BoxedVector3(v), nf).Ok?
    ensures ReadJson(StringToken(WriteJson(BoxedVector3(v), nf).value), nf) == Ok(v)
  {
    var parts := [nf.format(v.x), nf.format(v.y), nf.format(v.z)];
    SodaliteUtils.JoinSplit(parts, ',');
  }

  /**
   * A culture whose number text holds a comma (a decimal comma) breaks the round
   * trip: the written text splits into more than three parts, so reading it throws.
   */
  lemma CommaInNumberBreaksRead(v: Vec3, nf: NumberFormat)
    requires ',' in nf.format(v.x)
    ensures WriteJson(BoxedVector3(v), nf).Ok?
    ensures ReadJson(StringToken(WriteJson(BoxedVector3(v), nf).value), nf).Err?
  {
    var a, b, c := nf.format(v.x), nf.format(v.y), nf.format(v.z);
    var text := VectorText(v, nf);
    SodaliteUtils.SplitLength(text, ',');
    assert multiset(text) == multiset(a) + multiset{','} + multiset(b) + multiset{','} + multiset(c);
    assert multiset(a)[','] >= 1;
    assert |SodaliteUtils.Split(text, ',')| >= 4;
  }
}
