/** `Util.validateStringMap`: turns a property bag into a map from names to
    string values. */
module StringMap {

  import opened Wrappers
  import opened Text

  /** `Util.MAX_PROPERTY_LENGTH`. */
  const MaxPropertyLength: nat := 1024

  /** A property value as `validateStringMap` distinguishes it. */
  datatype PropertyValue =
    | StringValue(s: string)      // typeof value === "string"
    | Nullish                     // null or undefined
    | Convertible(text: string)   // has a toString function; `text` is what it returns
    | NotConvertible              // no toString function
    | ConvertsBadly               // its toString throws, or returns a value without a trim method

  /** The argument: an object (`null` is one too, for `typeof`) or not. */
  datatype Input =
    | Object(fields: map<string, PropertyValue>)
    | Null
    | NotAnObject

  predicate Kept(v: PropertyValue) {
    v.StringValue? || v.Convertible?
  }

  function TextOf(v: PropertyValue): string
    requires Kept(v)
  {
    if v.StringValue? then v.s else v.text
  }

  /** What `validateStringMap` ends with: `undefined`, an exception (from a
      `toString` that throws, or from calling `trim` on what a `toString`
      returned when that has no `trim` method), or the map. */
  datatype Validated = Undefined | Raised | Valid(value: map<string, string>)

  /** Some field makes the conversion loop throw. */
  predicate ConvertsBadlySomewhere(fields: map<string, PropertyValue>) {
    exists k :: k in fields && fields[k].ConvertsBadly?
  }

  /** `Util.validateStringMap(obj)` as written: every value that is a string
      or converts to one is stored trimmed of white space (the two arguments
      given to `String.prototype.trim` are ignored), other values are dropped,
      `null` gives an empty map, anything that is not an object gives
      `undefined`, and a value whose conversion goes wrong makes the call
      throw. */
  function ValidateStringMap(obj: Input): (r: Validated)
    ensures obj.NotAnObject? <==> r.Undefined?
    ensures r.Raised? <==> obj.Object? && ConvertsBadlySomewhere(obj.fields)
    ensures obj.Null? ==> r == Valid(map[])
    ensures obj.Object? && r.Valid? ==>
      && r.value.Keys <= obj.fields.Keys
      && (forall k :: k in obj.fields ==> (k in r.value <==> Kept(obj.fields[k])))
      && (forall k :: k in r.value ==> IsTrimOf(TextOf(obj.fields[k]), r.value[k]))
  {
    match obj
    case NotAnObject => Undefined
    case Null => Valid(map[])
    case Object(fields) =>
      if ConvertsBadlySomewhere(fields) then Raised
      else
        KeptValuesTrimmed(fields);
        Valid(map k | k in fields && Kept(fields[k]) :: Trim(TextOf(fields[k])))
  }

  lemma KeptValuesTrimmed(fields: map<string, PropertyValue>)
    ensures forall k :: k in fields && Kept(fields[k]) ==> IsTrimOf(TextOf(fields[k]), Trim(TextOf(fields[k])))
  {
    forall k | k in fields && Kept(fields[k])
      ensures IsTrimOf(TextOf(fields[k]), Trim(TextOf(fields[k])))
    {
      TrimSpec(TextOf(fields[k]));
    }
  }

  /** Validation is idempotent: feeding its output back in, as string values,
      returns it unchanged. */
  lemma ValidateIdempotent(obj: Input)
    requires obj.Object? && !ConvertsBadlySomewhere(obj.fields)
    ensures var r := ValidateStringMap(obj).value;
      ValidateStringMap(Object(map k | k in r :: StringValue(r[k]))) == Valid(r)
  {
    var fields := obj.fields;
    var r := map k | k in fields && Kept(fields[k]) :: Trim(TextOf(fields[k]));
    assert ValidateStringMap(obj) == Valid(r);
    assert forall k :: k in r ==> Stripped(r[k]);
    RevalidateTrimmed(r);
  }

  lemma RevalidateTrimmed(r: map<string, string>)
    requires forall k :: k in r ==> Stripped(r[k])
    ensures ValidateStringMap(Object(map k | k in r :: StringValue(r[k]))) == Valid(r)
  {
    var back := map k | k in r :: StringValue(r[k]);
    var again := map k | k in back && Kept(back[k]) :: Trim(TextOf(back[k]));
    assert !ConvertsBadlySomewhere(back);
    assert ValidateStringMap(Object(back)) == Valid(again);
    assert again.Keys == r.Keys;
    forall k | k in r
      ensures again[k] == r[k]
    {
      TrimOfStripped(r[k]);
    }
    MapsEqual(again, r);
  }

  /** The length limit the call `trim(0, MAX_PROPERTY_LENGTH)` was evidently
      meant to impose is not imposed: a value of 1025 non-blank characters is
      stored whole. */
  lemma LongValueNotTruncated()
    ensures var long := seq(MaxPropertyLength + 1, _ => 'a');
      var r := ValidateStringMap(Object(map["p" := StringValue(long)]));
      r.Valid? && "p" in r.value && |r.value["p"]| == MaxPropertyLength + 1
  {
    var long := seq(MaxPropertyLength + 1, _ => 'a');
    TrimOfStripped(long);
  }

  /** The first `n` characters of `s` (all of it when it is shorter). */
  function Prefix(s: string, n: nat): (r: string)
    ensures |r| <= n && |r| <= |s|
    ensures |s| <= n ==> r == s
    ensures |s| > n ==> |r| == n
    ensures r == s[..|r|]
  {
    if |s| <= n then s else s[..n]
  }

  /** `validateStringMap` with the length limit applied: each kept value is
      trimmed and then cut to `MAX_PROPERTY_LENGTH` characters. */
  function ValidateStringMapCapped(obj: Input): (r: Validated)
    ensures obj.NotAnObject? <==> r.Undefined?
    ensures r.Raised? <==> obj.Object? && ConvertsBadlySomewhere(obj.fields)
    ensures obj.Null? ==> r == Valid(map[])
    ensures obj.Object? && r.Valid? ==>
      && r.value.Keys <= obj.fields.Keys
      && (forall k :: k in obj.fields ==> (k in r.value <==> Kept(obj.fields[k])))
      && (forall k :: k in r.value ==> |r.value[k]| <= MaxPropertyLength)
      && (forall k :: k in r.value ==>
            var t := Trim(TextOf(obj.fields[k]));
            && StartsWith(t, r.value[k])
            && (|t| <= MaxPropertyLength ==> r.value[k] == t)
            && (|t| > MaxPropertyLength ==> |r.value[k]| == MaxPropertyLength))
  {
    match obj
    case NotAnObject => Undefined
    case Null => Valid(map[])
    case Object(fields) =>
      if ConvertsBadlySomewhere(fields) then Raised
      else Valid(map k | k in fields && Kept(fields[k]) :: Prefix(Trim(TextOf(fields[k])), MaxPropertyLength))
  }

  /** The capped validation differs from the one as written only on values
      whose trimmed text is longer than the limit. */
  lemma CappedAgreesOnShortValues(obj: Input)
    requires obj.Object?
    requires forall k :: k in obj.fields && Kept(obj.fields[k]) ==>
      |Trim(TextOf(obj.fields[k]))| <= MaxPropertyLength
    ensures ValidateStringMapCapped(obj) == ValidateStringMap(obj)
  {
    var fields := obj.fields;
    var a := map k | k in fields && Kept(fields[k]) :: Prefix(Trim(TextOf(fields[k])), MaxPropertyLength);
    var b := map k | k in fields && Kept(fields[k]) :: Trim(TextOf(fields[k]));
    if ConvertsBadlySomewhere(fields) {
      return;
    }
    assert ValidateStringMapCapped(obj) == Valid(a);
    assert ValidateStringMap(obj) == Valid(b);
    assert a.Keys == b.Keys;
    assert forall k :: k in a ==> a[k] == b[k];
    MapsEqual(a, b);
  }

  lemma MapsEqual(a: map<string, string>, b: map<string, string>)
    requires a.Keys == b.Keys
    requires forall k :: k in a ==> a[k] == b[k]
    ensures a == b
  {
  }
}
