/** The exchange tree as JSON, and its position-independent form. */
module JsonTree {

  /** A JSON number. JSON equality takes the two zeros for one number although they are spelled differently. */
  datatype Number = Int(n: int) | Float(x: real) | MinusZero {
    function Plain(): Number {
      if MinusZero? then Float(0.0) else this
    }
  }

  datatype Json =
    | Null
    | Bool(b: bool)
    | Num(number: Number)
    | Str(s: string)
    | Arr(items: seq<Json>)
    | Obj(fields: map<string, Json>)

  /** The form in which equality of values is JSON equality: both zeros become one. */
  function Canon(v: Json): Json
    decreases v
  {
    match v
    case Num(number) => Num(number.Plain())
    case Arr(items) => Arr(seq(|items|, i requires 0 <= i < |items| => Canon(items[i])))
    case Obj(fields) => Obj(map k | k in fields :: Canon(fields[k]))
    case _ => v
  }

  predicate JsonEqual(a: Json, b: Json) { Canon(a) == Canon(b) }

  /** Whether a member survives in a tree whose metadata is stripped. */
  predicate Kept(key: string, strip: bool) {
    !strip || (key != "pos" && key != "srcByteLength")
  }

  /** Author-written key-value pairs are no metadata, whatever they are called. */
  function StripBelow(key: string, strip: bool): bool {
    strip && key != "keyValues"
  }

  /** The tree without source positions, outside author-written key-value pairs. */
  function Clean(v: Json, strip: bool): Json
    decreases v
  {
    match v
    case Arr(items) => Arr(seq(|items|, i requires 0 <= i < |items| => Clean(items[i], strip)))
    case Obj(fields) => Obj(map k | k in fields && Kept(k, strip) :: Clean(fields[k], StripBelow(k, strip)))
    case _ => v
  }

  lemma {:induction false} CleanTwice(v: Json, strip: bool)
    ensures Clean(Clean(v, strip), strip) == Clean(v, strip)
    decreases v
  {
    match v
    case Arr(items) =>
      forall i | 0 <= i < |items| ensures Clean(Clean(items[i], strip), strip) == Clean(items[i], strip) {
        CleanTwice(items[i], strip);
      }
      assert Clean(Clean(v, strip), strip).items == Clean(v, strip).items;
    case Obj(fields) =>
      forall k | k in fields
        ensures Clean(Clean(fields[k], StripBelow(k, strip)), StripBelow(k, strip)) ==
          Clean(fields[k], StripBelow(k, strip))
      {
        CleanTwice(fields[k], StripBelow(k, strip));
      }
      assert Clean(Clean(v, strip), strip).fields == Clean(v, strip).fields;
    case _ =>
  }

  lemma {:induction false} CanonTwice(v: Json)
    ensures Canon(Canon(v)) == Canon(v)
    decreases v
  {
    match v
    case Arr(items) =>
      forall i | 0 <= i < |items| ensures Canon(Canon(items[i])) == Canon(items[i]) { CanonTwice(items[i]); }
      assert Canon(Canon(v)).items == Canon(v).items;
    case Obj(fields) =>
      forall k | k in fields ensures Canon(Canon(fields[k])) == Canon(fields[k]) { CanonTwice(fields[k]); }
      assert Canon(Canon(v)).fields == Canon(v).fields;
    case _ =>
  }

  lemma {:induction false} CleanOfCanon(v: Json, strip: bool)
    ensures Clean(Canon(v), strip) == Canon(Clean(v, strip))
    decreases v
  {
    match v
    case Arr(items) =>
      forall i | 0 <= i < |items| ensures Clean(Canon(items[i]), strip) == Canon(Clean(items[i], strip)) {
        CleanOfCanon(items[i], strip);
      }
      assert Clean(Canon(v), strip).items == Canon(Clean(v, strip)).items;
    case Obj(fields) =>
      forall k | k in fields
        ensures Clean(Canon(fields[k]), StripBelow(k, strip)) == Canon(Clean(fields[k], StripBelow(k, strip)))
      {
        CleanOfCanon(fields[k], StripBelow(k, strip));
      }
      assert Clean(Canon(v), strip).fields == Canon(Clean(v, strip)).fields;
    case _ =>
  }
}
