/** JSON values and the match by which script steps pick payloads. */
module Json {
  import opened Options

  datatype Number = Natural(n: nat) | Negative(i: int) | Float(r: real)

  datatype Value =
    | Null
    | Bool(b: bool)
    | Num(number: Number)
    | Str(text: string)
    | Array(items: seq<Value>)
    | Object(fields: map<string, Value>)

  /** `actual` says at least what `expected` says: its objects may have more keys, and that is all. */
  predicate Subset(expected: Value, actual: Value)
    decreases expected
  {
    match expected
    case Object(fields) =>
      actual.Object? && forall k | k in fields :: k in actual.fields && Subset(fields[k], actual.fields[k])
    case Array(items) =>
      && actual.Array? && |items| == |actual.items|
      && forall i | 0 <= i < |items| :: Subset(items[i], actual.items[i])
    case _ => expected == actual
  }

  lemma {:induction false} SubsetIsReflexive(a: Value)
    ensures Subset(a, a)
  {
    match a
    case Object(fields) => forall k | k in fields ensures Subset(fields[k], fields[k]) { SubsetIsReflexive(fields[k]); }
    case Array(items) => forall i | 0 <= i < |items| ensures Subset(items[i], items[i]) { SubsetIsReflexive(items[i]); }
    case _ =>
  }

  lemma {:induction false} SubsetIsTransitive(a: Value, b: Value, c: Value)
    requires Subset(a, b) && Subset(b, c)
    ensures Subset(a, c)
    decreases a
  {
    match a
    case Object(fields) =>
      forall k | k in fields ensures Subset(fields[k], c.fields[k]) {
        SubsetIsTransitive(fields[k], b.fields[k], c.fields[k]);
      }
    case Array(items) =>
      forall i | 0 <= i < |items| ensures Subset(items[i], c.items[i]) {
        SubsetIsTransitive(items[i], b.items[i], c.items[i]);
      }
    case _ =>
  }

  lemma {:induction false} SubsetIsAntisymmetric(a: Value, b: Value)
    requires Subset(a, b) && Subset(b, a)
    ensures a == b
    decreases a
  {
    match a
    case Object(fields) =>
      forall k | k in fields ensures fields[k] == b.fields[k] {
        SubsetIsAntisymmetric(fields[k], b.fields[k]);
      }
      assert fields == b.fields;
    case Array(items) =>
      forall i | 0 <= i < |items| ensures items[i] == b.items[i] {
        SubsetIsAntisymmetric(items[i], b.items[i]);
      }
      assert items == b.items;
    case _ =>
  }

  // ---- the same by paths -------------------------------------------------------------------------

  datatype Hop = Key(k: string) | Place(i: nat)

  /** What a path leads to, if it leads anywhere. */
  function Follow(v: Value, path: seq<Hop>): Option<Value>
    decreases |path|
  {
    if path == [] then Some(v)
    else match path[0]
      case Key(k) => if v.Object? && k in v.fields then Follow(v.fields[k], path[1..]) else None
      case Place(i) => if v.Array? && i < |v.items| then Follow(v.items[i], path[1..]) else None
  }

  /** Both are objects, or arrays of one length, or the same value without parts. */
  predicate SameSort(a: Value, b: Value) {
    || (a.Object? && b.Object?)
    || (a.Array? && b.Array? && |a.items| == |b.items|)
    || (!a.Object? && !a.Array? && a == b)
  }

  /** Whatever `path` leads to in `expected`, it leads to something of its sort in `actual`. */
  predicate AgreesAt(expected: Value, actual: Value, path: seq<Hop>) {
    var e, a := Follow(expected, path), Follow(actual, path);
    e.Some? ==> a.Some? && SameSort(e.value, a.value)
  }

  lemma {:induction false} PartsAgreeAt(expected: Value, actual: Value, path: seq<Hop>)
    requires Subset(expected, actual)
    ensures AgreesAt(expected, actual, path)
    decreases |path|
  {
    if path != [] && Follow(expected, path).Some? {
      match path[0]
      case Key(k) => PartsAgreeAt(expected.fields[k], actual.fields[k], path[1..]);
      case Place(i) => PartsAgreeAt(expected.items[i], actual.items[i], path[1..]);
    }
  }

  lemma {:induction false} AgreeingIsAPart(expected: Value, actual: Value)
    requires forall path :: AgreesAt(expected, actual, path)
    ensures Subset(expected, actual)
    decreases expected
  {
    assert AgreesAt(expected, actual, []);
    match expected
    case Object(fields) =>
      forall k | k in fields ensures k in actual.fields && Subset(fields[k], actual.fields[k]) {
        LeadsOn(expected, actual, Key(k));
        AgreeingIsAPart(fields[k], actual.fields[k]);
      }
    case Array(items) =>
      forall i | 0 <= i < |items| ensures Subset(items[i], actual.items[i]) {
        LeadsOn(expected, actual, Place(i));
        AgreeingIsAPart(items[i], actual.items[i]);
      }
    case _ =>
  }

  /** Agreeing everywhere is agreeing everywhere behind each hop. */
  lemma LeadsOn(expected: Value, actual: Value, hop: Hop)
    requires (forall path :: AgreesAt(expected, actual, path)) && Follow(expected, [hop]).Some?
    ensures Follow(actual, [hop]).Some?
    ensures forall path :: AgreesAt(Follow(expected, [hop]).value, Follow(actual, [hop]).value, path)
  {
    assert AgreesAt(expected, actual, [hop]);
    forall path ensures AgreesAt(Follow(expected, [hop]).value, Follow(actual, [hop]).value, path) {
      assert AgreesAt(expected, actual, [hop] + path);
      FollowOn(expected, hop, path);
      FollowOn(actual, hop, path);
    }
  }

  lemma FollowOn(v: Value, hop: Hop, path: seq<Hop>)
    requires Follow(v, [hop]).Some?
    ensures Follow(v, [hop] + path) == Follow(Follow(v, [hop]).value, path)
  {
    assert ([hop] + path)[1..] == path && [hop][1..] == [];
  }

  /** A value is a part of another exactly if every path of keys and places in it leads, in the other,
      to something of the same sort: the other may have more keys in its objects, and that is all. */
  lemma PartsAreSeenByPaths(expected: Value, actual: Value)
    ensures Subset(expected, actual) <==> forall path :: AgreesAt(expected, actual, path)
  {
    if Subset(expected, actual) {
      forall path ensures AgreesAt(expected, actual, path) {
        PartsAgreeAt(expected, actual, path);
      }
    }
    if forall path :: AgreesAt(expected, actual, path) {
      AgreeingIsAPart(expected, actual);
    }
  }

  /** Leaving out keys gives a part, and a part stays one when keys are added. */
  lemma KeysMayBeLeftOut(fields: map<string, Value>, left: set<string>, f: map<string, Value>, k: string, v: Value)
    ensures Subset(Object(fields - left), Object(fields))
    ensures Subset(Object(f), Object(fields)) && k !in fields ==> Subset(Object(f), Object(fields[k := v]))
  {
    forall x | x in fields ensures Subset(fields[x], fields[x]) {
      SubsetIsReflexive(fields[x]);
    }
  }
}
