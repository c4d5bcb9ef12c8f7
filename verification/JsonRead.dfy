/** Reading typed values out of JSON: every field once, none missing, none unknown. */
module JsonRead {
  import opened Prelude
  import opened Text
  import opened Json

  predicate Strict(fields: seq<Member>, required: set<string>, optional: set<string>) {
    && (forall i :: 0 <= i < |fields| ==> fields[i].key in required + optional)
    && (forall i, j :: 0 <= i < j < |fields| ==> fields[i].key != fields[j].key)
    && (forall k :: k in required ==> Field(fields, k).Some?)
  }

  function ReadText(j: Option<Json>): Option<string> {
    match j case Some(Str(s)) => Some(s) case _ => None
  }

  /** A number without sign, fraction or exponent that 64 bits can hold. */
  function ReadU64(j: Option<Json>): Option<U64> {
    match j
    case Some(Number(text)) => if NoLeadingZero(text) && NumberOf(text) <= U64_MAX then Some(NumberOf(text)) else None
    case _ => None
  }

  function ReadList<T>(j: Option<Json>, read: Json -> Option<T>): Option<seq<T>> {
    match j case Some(List(items)) => ReadItems(items, read) case _ => None
  }

  function ReadItems<T>(items: seq<Json>, read: Json -> Option<T>): Option<seq<T>> {
    if items == [] then Some([])
    else match (read(items[0]), ReadItems(items[1..], read)) case (Some(first), Some(rest)) => Some([first] + rest) case _ => None
  }

  /** A field that may be absent or null. */
  function ReadOptional<T>(j: Option<Json>, read: Option<Json> -> Option<T>): Option<Option<T>> {
    match j
    case None | Some(Null) => Some(None)
    case Some(_) => match read(j) { case Some(x) => Some(Some(x)) case None => None }
  }

  lemma {:induction false} ItemsRead<T>(items: seq<Json>, read: Json -> Option<T>, xs: seq<T>)
    requires |items| == |xs| && forall i :: 0 <= i < |items| ==> read(items[i]) == Some(xs[i])
    ensures ReadItems(items, read) == Some(xs)
  {
    if items != [] {
      ItemsRead(items[1..], read, xs[1..]);
      assert xs == [xs[0]] + xs[1..];
    }
  }

  lemma NumberRead(n: U64)
    ensures ReadU64(Some(Number(Decimal(n)))) == Some(n)
  {
  }

  ghost predicate Distinct(keys: seq<string>) { forall i, j :: 0 <= i < j < |keys| ==> keys[i] != keys[j] }

  /** The fields' keys, in order. */
  ghost predicate Keyed(fields: seq<Member>, keys: seq<string>) {
    |fields| == |keys| && forall i :: 0 <= i < |fields| ==> fields[i].key == keys[i]
  }

  /** Where no key repeats every field is found under its key. */
  lemma FieldFound(fields: seq<Member>, keys: seq<string>)
    requires Keyed(fields, keys) && Distinct(keys)
    ensures forall i :: 0 <= i < |keys| ==> Field(fields, keys[i]) == Some(fields[i].value)
  {
    forall i | 0 <= i < |keys| ensures Field(fields, keys[i]) == Some(fields[i].value) {
      SkipTo(fields, keys[i], i);
    }
  }

  lemma StrictKeys(fields: seq<Member>, keys: seq<string>, required: set<string>, optional: set<string>)
    requires Keyed(fields, keys) && Distinct(keys)
    requires (forall k :: k in keys ==> k in required + optional) && forall k :: k in required ==> k in keys
    ensures Strict(fields, required, optional)
  {
    hide Field;
    FieldFound(fields, keys);
  }

  lemma {:induction false} NotFound(fields: seq<Member>, key: string)
    requires forall i :: 0 <= i < |fields| ==> fields[i].key != key
    ensures Field(fields, key) == None
  {
    if fields != [] { NotFound(fields[1..], key); }
  }

  lemma {:induction false} FieldJoin(a: seq<Member>, b: seq<Member>, key: string)
    ensures Field(a + b, key) == if Field(a, key).Some? then Field(a, key) else Field(b, key)
  {
    if a == [] {
      assert a + b == b;
    } else {
      FieldJoin(a[1..], b, key);
      assert (a + b)[1..] == a[1..] + b;
    }
  }

  /** No other key, and none twice. */
  ghost predicate OnlyOnce(fields: seq<Member>, keys: set<string>) {
    (forall m :: m in fields ==> m.key in keys) && forall i, j :: 0 <= i < j < |fields| ==> fields[i].key != fields[j].key
  }

  /** A list is read exactly when each of its items is, in order. */
  lemma {:induction false} ItemsMean<T>(items: seq<Json>, read: Json -> Option<T>)
    ensures ReadItems(items, read).Some? <==> forall i :: 0 <= i < |items| ==> read(items[i]).Some?
    ensures ReadItems(items, read).Some? ==> var xs := ReadItems(items, read).value;
      |xs| == |items| && forall i :: 0 <= i < |items| ==> read(items[i]) == Some(xs[i])
  {
    if items != [] {
      ItemsMean(items[1..], read);
      assert forall i :: 0 < i < |items| ==> items[i] == items[1..][i - 1];
    }
  }

  /** A number is read exactly when it is the plain decimal text of one that 64 bits hold. */
  lemma NumbersMean()
    ensures forall j: Option<Json>, n: U64 :: ReadU64(j) == Some(n) <==> j == Some(Number(Decimal(n)))
  {
    forall j: Option<Json>, n: U64 ensures ReadU64(j) == Some(n) <==> j == Some(Number(Decimal(n))) {
      if j.Some? && j.value.Number? && NoLeadingZero(j.value.text) { DecimalOfNumber(j.value.text); }
    }
  }
}
