/**
  The two helpers of the store generators: capitalising the first letter of a
  store name, and the structural deep copy used to seed and reset slice state.
 */
module Utils {

  // ---------------------------------------------------------------------------
  // Capitalisation
  // ---------------------------------------------------------------------------

  predicate IsLowerAscii(c: char) {
    'a' <= c <= 'z'
  }

  /** `toUpperCase` restricted to ASCII: lower-case letters move up by 32 code
      points, every other character is returned unchanged. */
  function ToUpperAscii(c: char): (u: char)
    ensures !IsLowerAscii(u)
    ensures !IsLowerAscii(c) ==> u == c
    ensures IsLowerAscii(c) ==> 'A' <= u <= 'Z' && u as int + 32 == c as int
  {
    if IsLowerAscii(c) then (c as int - 32) as char else c
  }

  /** `capitalizeFirstLetter`: the first character upper-cased, the rest kept. */
  function Capitalize(s: string): (r: string)
    ensures |r| == |s|
    ensures forall i :: 1 <= i < |s| ==> r[i] == s[i]
    ensures |s| > 0 ==> r[0] == ToUpperAscii(s[0]) && !IsLowerAscii(r[0])
  {
    if |s| == 0 then "" else [ToUpperAscii(s[0])] + s[1..]
  }

  /** Capitalising twice is capitalising once. */
  lemma CapitalizeIdempotent(s: string)
    ensures Capitalize(Capitalize(s)) == Capitalize(s)
  {
  }

  /** A string is left unchanged exactly when it is empty or does not start
      with a lower-case letter. */
  lemma CapitalizeFixpoint(s: string)
    ensures Capitalize(s) == s <==> (|s| == 0 || !IsLowerAscii(s[0]))
  {
  }

  // ---------------------------------------------------------------------------
  // Values and the deep copy
  // ---------------------------------------------------------------------------

  /** The time value of a `Date`; an invalid date carries NaN. */
  datatype Time = Instant(ms: int) | InvalidTime

  /** Everything for which `typeof` does not answer "object": these are
      returned as they are. Functions belong here because `typeof` answers
      "function" for them; `id` stands for the object's identity. */
  datatype Primitive =
    | Undefined
    | Boolean(b: bool)
    | Number(n: int)
    | String(s: string)
    | BigInt(i: int)
    | Symbol(id: nat)
    | Function(id: nat)

  datatype PropertyKey = Named(name: string) | Symbolic(id: nat)

  /** One property reachable from an object: `own` is false for a property
      found on the prototype chain. */
  datatype Property = Property(key: PropertyKey, value: Value, own: bool, enumerable: bool)

  /** One entry of a `Map`, in insertion order. */
  datatype Entry = Entry(key: Value, value: Value)

  datatype Value =
    | Prim(prim: Primitive)
    | Null
    | Date(time: Time)
    | RegExp(source: string, flags: string)
    | MapValue(entries: seq<Entry>)
    | SetValue(members: seq<Value>)
    | Array(items: seq<Value>)
    | Object(props: seq<Property>)

  /** The one string key that `result[key] = ...` on a plain object does not
      store as an own property: assigning it runs the inherited prototype
      setter instead. */
  const ProtoKey: string := "__proto__"

  /** The properties a `for..in` loop guarded by `hasOwnProperty` visits
      (own, enumerable, keyed by a string) and that the assignment then
      stores as own properties of the copy. */
  predicate Copied(p: Property) {
    p.own && p.enumerable && p.key.Named? && p.key.name != ProtoKey
  }

  /** The copied properties of `ps`, in order. */
  function CopiedProps(ps: seq<Property>): (r: seq<Property>)
    ensures forall i :: 0 <= i < |r| ==> r[i] in ps && Copied(r[i])
    ensures forall p :: p in ps && Copied(p) ==> p in r
    ensures |r| <= |ps|
    decreases |ps|
  {
    if |ps| == 0 then []
    else if Copied(ps[0]) then [ps[0]] + CopiedProps(ps[1..])
    else CopiedProps(ps[1..])
  }

  /** The copied properties keep the order of the `for..in` walk: filtering a
      concatenation filters each part, and a single property is kept exactly
      when it is copied. */
  lemma {:induction false} CopiedPropsAppend(a: seq<Property>, b: seq<Property>)
    ensures CopiedProps(a + b) == CopiedProps(a) + CopiedProps(b)
    ensures forall p :: CopiedProps([p]) == if Copied(p) then [p] else []
    decreases |a|
  {
    if |a| > 0 {
      assert (a + b)[1..] == a[1..] + b;
      CopiedPropsAppend(a[1..], b);
    } else {
      assert a + b == b;
    }
  }

  /** The set of names of the copied properties of `ps`. */
  function CopiedNames(ps: seq<Property>): set<string> {
    set p | p in ps && Copied(p) :: p.key.name
  }

  function Names(ps: seq<Property>): set<string>
    requires forall i :: 0 <= i < |ps| ==> ps[i].key.Named?
  {
    set i | 0 <= i < |ps| :: ps[i].key.name
  }

  /** `cloneDeep`: non-objects and null as they are; dates, regular expressions,
      maps, sets and arrays rebuilt with the same kind and cloned contents; any
      other object rebuilt as a plain object holding clones of its copied
      properties. */
  function Clone(v: Value): (r: Value)
    ensures v.Prim? || v.Null? ==> r == v
    ensures r.Prim? <==> v.Prim?
    ensures r.Null? <==> v.Null?
    ensures r.Date? <==> v.Date?
    ensures v.Date? ==> r.time == v.time
    ensures r.RegExp? <==> v.RegExp?
    ensures v.RegExp? ==> r.source == v.source && r.flags == v.flags
    ensures r.MapValue? <==> v.MapValue?
    ensures v.MapValue? ==> |r.entries| == |v.entries|
    ensures v.MapValue? ==> forall i :: 0 <= i < |v.entries| ==>
      r.entries[i] == Entry(Clone(v.entries[i].key), Clone(v.entries[i].value))
    ensures r.SetValue? <==> v.SetValue?
    ensures v.SetValue? ==> |r.members| == |v.members|
    ensures v.SetValue? ==> forall i :: 0 <= i < |v.members| ==> r.members[i] == Clone(v.members[i])
    ensures r.Array? <==> v.Array?
    ensures v.Array? ==> |r.items| == |v.items|
    ensures v.Array? ==> forall i :: 0 <= i < |v.items| ==> r.items[i] == Clone(v.items[i])
    ensures r.Object? <==> v.Object?
    ensures v.Object? ==> |r.props| == |CopiedProps(v.props)| <= |v.props|
    ensures v.Object? ==> forall i :: 0 <= i < |r.props| ==>
      var p := CopiedProps(v.props)[i];
      r.props[i] == Property(p.key, Clone(p.value), true, true)
    ensures v.Object? ==> (forall i :: 0 <= i < |r.props| ==> Copied(r.props[i]))
    ensures v.Object? ==> Names(r.props) == CopiedNames(v.props)
  {
    match v
    case Prim(_) => v
    case Null => v
    case Date(t) => Date(t)
    case RegExp(src, fl) => RegExp(src, fl)
    case MapValue(es) =>
      MapValue(seq(|es|, i requires 0 <= i < |es| => Entry(Clone(es[i].key), Clone(es[i].value))))
    case SetValue(ms) =>
      SetValue(seq(|ms|, i requires 0 <= i < |ms| => Clone(ms[i])))
    case Array(xs) =>
      Array(seq(|xs|, i requires 0 <= i < |xs| => Clone(xs[i])))
    case Object(ps) =>
      var cs := CopiedProps(ps);
      var r := seq(|cs|, i requires 0 <= i < |cs| =>
                 assert cs[i] in ps;
                 Property(cs[i].key, Clone(cs[i].value), true, true));
      assert Names(r) == CopiedNames(ps) by {
        forall n | n in CopiedNames(ps) ensures n in Names(r) {
          var p :| p in ps && Copied(p) && p.key.name == n;
          var i :| 0 <= i < |cs| && cs[i] == p;
          assert r[i].key.name == n;
        }
      }
      Object(r)
  }

  /** A value every part of which a deep copy reproduces: each object holds
      only own, enumerable, string-keyed properties. */
  predicate Plain(v: Value) {
    match v
    case MapValue(es) => forall i :: 0 <= i < |es| ==> Plain(es[i].key) && Plain(es[i].value)
    case SetValue(ms) => forall i :: 0 <= i < |ms| ==> Plain(ms[i])
    case Array(xs) => forall i :: 0 <= i < |xs| ==> Plain(xs[i])
    case Object(ps) => forall i :: 0 <= i < |ps| ==> Copied(ps[i]) && Plain(ps[i].value)
    case _ => true
  }

  /** Filtering a sequence whose every property is copied keeps all of it. */
  lemma {:induction false} CopiedPropsOfCopied(ps: seq<Property>)
    requires forall i :: 0 <= i < |ps| ==> Copied(ps[i])
    ensures CopiedProps(ps) == ps
    decreases |ps|
  {
    if |ps| > 0 {
      CopiedPropsOfCopied(ps[1..]);
    }
  }

  /** A deep copy contains nothing a further deep copy would drop. */
  lemma {:induction false} CloneIsPlain(v: Value)
    ensures Plain(Clone(v))
  {
    match v
    case MapValue(es) =>
      forall i | 0 <= i < |es|
        ensures Plain(Clone(es[i].key)) && Plain(Clone(es[i].value))
      {
        CloneIsPlain(es[i].key);
        CloneIsPlain(es[i].value);
      }
    case SetValue(ms) =>
      forall i | 0 <= i < |ms| {
        CloneIsPlain(ms[i]);
      }
    case Array(xs) =>
      forall i | 0 <= i < |xs| {
        CloneIsPlain(xs[i]);
      }
    case Object(ps) =>
      var cs := CopiedProps(ps);
      forall i | 0 <= i < |cs|
        ensures Plain(Clone(cs[i].value))
      {
        assert cs[i] in ps;
        CloneIsPlain(cs[i].value);
      }
    case _ =>
  }

  /** A plain value is reproduced exactly by a deep copy. */
  lemma {:induction false} PlainCloneIsIdentity(v: Value)
    requires Plain(v)
    ensures Clone(v) == v
  {
    match v
    case MapValue(es) =>
      forall i | 0 <= i < |es|
        ensures Clone(es[i].key) == es[i].key && Clone(es[i].value) == es[i].value
      {
        PlainCloneIsIdentity(es[i].key);
        PlainCloneIsIdentity(es[i].value);
      }
      assert Clone(v).entries == es;
    case SetValue(ms) =>
      forall i | 0 <= i < |ms| {
        PlainCloneIsIdentity(ms[i]);
      }
      assert Clone(v).members == ms;
    case Array(xs) =>
      forall i | 0 <= i < |xs| {
        PlainCloneIsIdentity(xs[i]);
      }
      assert Clone(v).items == xs;
    case Object(ps) =>
      CopiedPropsOfCopied(ps);
      forall i | 0 <= i < |ps| {
        PlainCloneIsIdentity(ps[i].value);
      }
      assert Clone(v).props == ps;
    case _ =>
  }

  /** Structural equality of a value and its deep copy: the copy equals the
      original exactly when the original is plain. */
  lemma ClonePlainIdentity(v: Value)
    ensures Clone(v) == v <==> Plain(v)
  {
    if Plain(v) {
      PlainCloneIsIdentity(v);
    } else {
      CloneIsPlain(v);
    }
  }

  /** Deep-copying a deep copy changes nothing. */
  lemma CloneIdempotent(v: Value)
    ensures Clone(Clone(v)) == Clone(v)
  {
    CloneIsPlain(v);
    ClonePlainIdentity(Clone(v));
  }
}
