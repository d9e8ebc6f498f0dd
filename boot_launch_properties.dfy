/**
 * How a Spring Boot launch configuration keeps its user-defined Spring Boot
 * properties in the launch configuration's attribute map, and how those
 * properties become program arguments. Everything here is a pure function of
 * its inputs; the working copy that is updated in place is in BootLaunchConfig.
 */
module BootLaunchProperties {
  import opened Wrappers
  import opened Strings

  /** Prefix that keeps Spring Boot property attributes apart from every other attribute. */
  const PropsPrefix: string := "spring.boot.prop."

  /** Separates the property name from the oid in a stored key. */
  const OidSeparator: char := ':'

  /** One row of the properties table: a property assignment that can be switched off. */
  datatype PropVal = PropVal(name: string, value: string, isChecked: bool)

  /** The kinds of value a launch configuration attribute can hold. */
  datatype Attr =
    | Str(s: string)
    | Bool(b: bool)
    | Int(i: int)
    | StrList(items: seq<string>)
    | StrSet(members: set<string>)
    | StrMap(entries: map<string, string>)

  // ---------------------------------------------------------------------------
  // PropVal.equals and PropVal.toString
  // ---------------------------------------------------------------------------

  /** `PropVal.equals`: the check flag, the name and the value all agree. */
  function Equals(a: PropVal, b: PropVal): (r: bool)
    ensures r <==> a == b
  {
    a.isChecked == b.isChecked && a.name == b.name && a.value == b.value
  }

  /** `PropVal.toString`: a check box, then `name=value`. */
  function ToString(p: PropVal): (r: string)
    ensures |r| == 5 + |p.name| + |p.value|
    ensures r[..4] == (if p.isChecked then "[X] " else "[ ] ")
    ensures r[4..] == p.name + "=" + p.value
  {
    (if p.isChecked then "[X] " else "[ ] ") + p.name + "=" + p.value
  }

  /** Splits `s` at its first `'='`: the reading of `name=value` that stops at the first `'='`. */
  function SplitAssignment(s: string): Option<(string, string)>
  {
    var pos := IndexOf(s, '=');
    if pos < 0 then None else Some((s[..pos], s[pos + 1..]))
  }

  /** Reads back a rendering produced by ToString. */
  function ParseToString(s: string): Option<PropVal>
  {
    if |s| < 4 || !(s[..4] == "[X] " || s[..4] == "[ ] ") then None
    else
      match SplitAssignment(s[4..])
      case None => None
      case Some((n, v)) => Some(PropVal(n, v, s[..4] == "[X] "))
  }

  /** A rendering splits back at the `'='` the renderer wrote, when the name holds none. */
  lemma SplitAssignmentAfterName(name: string, value: string)
    requires '=' !in name
    ensures SplitAssignment(name + "=" + value) == Some((name, value))
  {
    var s := name + "=" + value;
    assert s[|name|] == '=';
    assert forall i :: 0 <= i < |name| ==> s[i] == name[i];
    assert s[..|name|] == name && s[|name| + 1..] == value;
  }

  /** ToString loses nothing for a property whose name holds no `'='`. */
  lemma {:induction false} ToStringRoundTrip(p: PropVal)
    requires '=' !in p.name
    ensures ParseToString(ToString(p)) == Some(p)
  {
    var box := if p.isChecked then "[X] " else "[ ] ";
    var s := ToString(p);
    assert s == box + (p.name + "=" + p.value);
    assert s[..4] == box && s[4..] == p.name + "=" + p.value;
    SplitAssignmentAfterName(p.name, p.value);
  }

  // ---------------------------------------------------------------------------
  // Encoding (setProperties) and decoding (getProperties) of one entry
  // ---------------------------------------------------------------------------

  /** The stored key of a property with the given oid: prefix, name, `':'`, oid in decimal. */
  function EncodeKey(name: string, oid: nat): string {
    PropsPrefix + name + [OidSeparator] + NatToString(oid)
  }

  /** The stored value: `'1'` or `'0'` for the check flag, then the property value. */
  function EncodeValue(p: PropVal): string {
    [if p.isChecked then '1' else '0'] + p.value
  }

  /** The property name inside the part of a key after the prefix: everything before the last `':'`. */
  function KeyName(suffix: string): (r: string)
    ensures OidSeparator !in suffix ==> r == suffix
    ensures OidSeparator in suffix ==>
      |r| < |suffix| && suffix[..|r|] == r && suffix[|r|] == OidSeparator && OidSeparator !in suffix[|r| + 1..]
  {
    var pos := LastIndexOf(suffix, OidSeparator);
    assert OidSeparator in suffix ==> pos >= 0;
    if pos >= 0 then suffix[..pos] else suffix
  }

  /**
   * `getProperties` on one attribute: None for an attribute that is not a
   * property, and for a property attribute whose value is not a non-empty
   * string (Spring IDE's code skips such an entry and goes on with the next).
   */
  function DecodeEntry(key: string, a: Attr): (r: Option<PropVal>)
    ensures r.Some? <==> HasPrefix(key, PropsPrefix) && a.Str? && a.s != []
    ensures r.Some? ==> (r.value.isChecked <==> a.s[0] == '1')
    ensures r.Some? ==> r.value.value == a.s[1..]
    ensures r.Some? ==> r.value.name == KeyName(key[|PropsPrefix|..])
  {
    if !HasPrefix(key, PropsPrefix) then None
    else
      match a
      case Str(s) =>
        if |s| == 0 then None
        else Some(PropVal(KeyName(key[|PropsPrefix|..]), s[1..], s[0] == '1'))
      case _ => None
  }

  /** The last `':'` of a stored key is always the one in front of the oid. */
  lemma EncodeKeySplit(name: string, oid: nat)
    ensures HasPrefix(EncodeKey(name, oid), PropsPrefix)
    ensures EncodeKey(name, oid)[|PropsPrefix|..] == name + [OidSeparator] + NatToString(oid)
    ensures KeyName(EncodeKey(name, oid)[|PropsPrefix|..]) == name
  {
    var key := EncodeKey(name, oid);
    var suffix := name + [OidSeparator] + NatToString(oid);
    assert key == PropsPrefix + suffix;
    assert key[|PropsPrefix|..] == suffix;
    NatToStringFreeOf(oid, OidSeparator);
    LastIndexOfAfterTail(name, OidSeparator, NatToString(oid));
  }

  /** Decoding a stored entry gives back the property that was stored. */
  lemma {:induction false} DecodeEncodedEntry(p: PropVal, oid: nat)
    ensures DecodeEntry(EncodeKey(p.name, oid), Str(EncodeValue(p))) == Some(p)
  {
    EncodeKeySplit(p.name, oid);
  }

  /** Two stored keys are equal only when both the name and the oid are. */
  lemma {:induction false} EncodeKeyInjective(n1: string, o1: nat, n2: string, o2: nat)
    ensures EncodeKey(n1, o1) == EncodeKey(n2, o2) ==> n1 == n2 && o1 == o2
  {
    if EncodeKey(n1, o1) == EncodeKey(n2, o2) {
      EncodeKeySplit(n1, o1);
      EncodeKeySplit(n2, o2);
      var suffix := EncodeKey(n1, o1)[|PropsPrefix|..];
      assert n1 == n2;
      assert suffix[|n1| + 1..] == NatToString(o1);
      assert suffix[|n2| + 1..] == NatToString(o2);
      NatToStringInjective(o1, o2);
    }
  }

  // ---------------------------------------------------------------------------
  // setProperties over the whole attribute map
  // ---------------------------------------------------------------------------

  /** True iff no value occurs twice in `s`. */
  predicate Distinct<T(==)>(s: seq<T>) {
    forall i, j :: 0 <= i < j < |s| ==> s[i] != s[j]
  }

  /** True iff `key` is a Spring Boot property attribute. */
  predicate IsPropKey(key: string) {
    HasPrefix(key, PropsPrefix)
  }

  /** The properties `setProperties` stores: those whose name passes `hasText`, in order. */
  function Storable(props: seq<PropVal>, hasText: string -> bool): (r: seq<PropVal>)
    ensures |r| <= |props|
    ensures forall p :: p in r <==> p in props && hasText(p.name)
  {
    if props == [] then []
    else if hasText(props[0].name) then [props[0]] + Storable(props[1..], hasText)
    else Storable(props[1..], hasText)
  }

  /** Storing keeps the input order: the properties of a concatenation are those of each part, in turn. */
  lemma {:induction false} StorableAppend(a: seq<PropVal>, b: seq<PropVal>, hasText: string -> bool)
    ensures Storable(a + b, hasText) == Storable(a, hasText) + Storable(b, hasText)
    ensures Storable([], hasText) == []
    ensures forall p :: Storable([p], hasText) == if hasText(p.name) then [p] else []
    decreases |a|
  {
    if a == [] {
      assert a + b == b;
    } else {
      assert (a + b)[1..] == a[1..] + b;
      StorableAppend(a[1..], b, hasText);
    }
    forall p ensures Storable([p], hasText) == if hasText(p.name) then [p] else [] {
      assert [p][1..] == [];
    }
  }

  /** Every property with text is kept as often as it occurs; every other is dropped. */
  lemma {:induction false} StorableCounts(props: seq<PropVal>, hasText: string -> bool)
    ensures forall p :: multiset(Storable(props, hasText))[p] == if hasText(p.name) then multiset(props)[p] else 0
  {
    if props != [] {
      StorableCounts(props[1..], hasText);
      assert props == [props[0]] + props[1..];
    }
  }

  /** A property together with the oid it is stored under. */
  datatype StoredProp = StoredProp(prop: PropVal, oid: nat) {
    function Key(): string { EncodeKey(prop.name, oid) }
    function Value(): string { EncodeValue(prop) }
  }

  /**
   * The entries `setProperties` writes, in writing order, when the first
   * storable property gets the oid `oid`: every storable property in turn,
   * with oids rising by one; a property with a blank name uses up no oid.
   */
  function EncodeAll(props: seq<PropVal>, hasText: string -> bool, oid: nat): (r: seq<StoredProp>)
  {
    if props == [] then []
    else if hasText(props[0].name) then [StoredProp(props[0], oid)] + EncodeAll(props[1..], hasText, oid + 1)
    else EncodeAll(props[1..], hasText, oid)
  }

  /** Entry `i` written is the `i`-th storable property, under oid `oid + i`. */
  lemma {:induction false} EncodeAllShape(props: seq<PropVal>, hasText: string -> bool, oid: nat)
    ensures |EncodeAll(props, hasText, oid)| == |Storable(props, hasText)|
    ensures forall i :: 0 <= i < |EncodeAll(props, hasText, oid)| ==>
      EncodeAll(props, hasText, oid)[i] == StoredProp(Storable(props, hasText)[i], oid + i)
  {
    if props != [] {
      var next := if hasText(props[0].name) then oid + 1 else oid;
      EncodeAllShape(props[1..], hasText, next);
      var e, e' := EncodeAll(props, hasText, oid), EncodeAll(props[1..], hasText, next);
      var st, st' := Storable(props, hasText), Storable(props[1..], hasText);
      if hasText(props[0].name) {
        assert e == [StoredProp(props[0], oid)] + e' && st == [props[0]] + st';
      } else {
        assert e == e' && st == st';
      }
    }
  }

  /** One step of `setProperties`' loop: the entries still to write from position `i` on. */
  lemma EncodeAllStep(props: seq<PropVal>, hasText: string -> bool, i: nat, oid: nat)
    requires i < |props|
    ensures EncodeAll(props[i..], hasText, oid) ==
      if hasText(props[i].name) then [StoredProp(props[i], oid)] + EncodeAll(props[i + 1..], hasText, oid + 1)
      else EncodeAll(props[i + 1..], hasText, oid)
    ensures |Storable(props[i..], hasText)| ==
      (if hasText(props[i].name) then 1 else 0) + |Storable(props[i + 1..], hasText)|
  {
    assert props[i..][1..] == props[i + 1..];
  }

  /** The keys of stored entries, in order. */
  function KeysOf(stored: seq<StoredProp>): (r: seq<string>)
    ensures |r| == |stored|
    ensures forall i :: 0 <= i < |r| ==> r[i] == stored[i].Key()
  {
    seq(|stored|, i requires 0 <= i < |stored| => stored[i].Key())
  }

  /** Writes the entries one after the other, as repeated `setAttribute` calls do. */
  function StoreAll(m: map<string, Attr>, stored: seq<StoredProp>): map<string, Attr>
    decreases |stored|
  {
    if stored == [] then m
    else StoreAll(m[stored[0].Key() := Str(stored[0].Value())], stored[1..])
  }

  /** Writing one more entry after the others. */
  lemma {:induction false} StoreAllAppend(m: map<string, Attr>, stored: seq<StoredProp>, sp: StoredProp)
    ensures StoreAll(m, stored + [sp]) == StoreAll(m, stored)[sp.Key() := Str(sp.Value())]
    decreases |stored|
  {
    if stored == [] {
      assert [] + [sp] == [sp];
    } else {
      assert (stored + [sp])[1..] == stored[1..] + [sp];
      StoreAllAppend(m[stored[0].Key() := Str(stored[0].Value())], stored[1..], sp);
    }
  }

  /** `clearProperties` as a function: every property attribute removed, every other kept. */
  function Unprefixed(m: map<string, Attr>): (r: map<string, Attr>)
    ensures forall k :: k in r <==> k in m && !IsPropKey(k)
    ensures forall k :: k in r ==> r[k] == m[k]
  {
    map k | k in m && !IsPropKey(k) :: m[k]
  }

  /** One step of `setProperties`' loop, from the entries written so far to those written after position `i`. */
  lemma WriteStep(m: map<string, Attr>, props: seq<PropVal>, hasText: string -> bool, written: seq<StoredProp>, i: nat, oid: nat)
    requires i < |props|
    requires EncodeAll(props, hasText, 0) == written + EncodeAll(props[i..], hasText, oid)
    ensures hasText(props[i].name) ==>
      var sp := StoredProp(props[i], oid);
      && EncodeAll(props, hasText, 0) == (written + [sp]) + EncodeAll(props[i + 1..], hasText, oid + 1)
      && StoreAll(m, written + [sp]) == StoreAll(m, written)[sp.Key() := Str(sp.Value())]
    ensures !hasText(props[i].name) ==> EncodeAll(props, hasText, 0) == written + EncodeAll(props[i + 1..], hasText, oid)
  {
    EncodeAllStep(props, hasText, i, oid);
    var sp := StoredProp(props[i], oid);
    var rest := EncodeAll(props[i + 1..], hasText, oid + 1);
    assert written + ([sp] + rest) == (written + [sp]) + rest;
    StoreAllAppend(m, written, sp);
  }

  /** The attribute map after `setProperties(conf, props)`. */
  function AfterSetProperties(m: map<string, Attr>, props: seq<PropVal>, hasText: string -> bool): map<string, Attr>
  {
    StoreAll(Unprefixed(m), EncodeAll(props, hasText, 0))
  }

  /** Stored keys are pairwise distinct, so no entry overwrites another, even when names repeat. */
  lemma EncodedKeysDistinct(props: seq<PropVal>, hasText: string -> bool, oid: nat)
    ensures Distinct(KeysOf(EncodeAll(props, hasText, oid)))
    ensures forall i :: 0 <= i < |EncodeAll(props, hasText, oid)| ==> IsPropKey(KeysOf(EncodeAll(props, hasText, oid))[i])
  {
    var e := EncodeAll(props, hasText, oid);
    var keys := KeysOf(e);
    EncodeAllShape(props, hasText, oid);
    forall i, j | 0 <= i < j < |keys| ensures keys[i] != keys[j] {
      EncodeKeyInjective(e[i].prop.name, e[i].oid, e[j].prop.name, e[j].oid);
    }
    forall i | 0 <= i < |keys| ensures IsPropKey(keys[i]) {
      EncodeKeySplit(e[i].prop.name, e[i].oid);
    }
  }

  /** What StoreAll leaves in the map when the written keys are distinct. */
  lemma {:induction false} StoreAllContents(m: map<string, Attr>, stored: seq<StoredProp>)
    requires Distinct(KeysOf(stored))
    ensures forall k :: k in StoreAll(m, stored) <==> k in m || k in KeysOf(stored)
    ensures forall i :: 0 <= i < |stored| ==> StoreAll(m, stored)[stored[i].Key()] == Str(stored[i].Value())
    ensures forall k :: k in m && k !in KeysOf(stored) ==> StoreAll(m, stored)[k] == m[k]
    decreases |stored|
  {
    if stored != [] {
      var m' := m[stored[0].Key() := Str(stored[0].Value())];
      var rest := stored[1..];
      assert KeysOf(stored) == [stored[0].Key()] + KeysOf(rest);
      assert Distinct(KeysOf(rest));
      StoreAllContents(m', rest);
      assert stored[0].Key() !in KeysOf(rest);
      forall i | 1 <= i < |stored| ensures StoreAll(m, stored)[stored[i].Key()] == Str(stored[i].Value()) {
        assert stored[i] == rest[i - 1];
      }
    }
  }

  /** `setProperties` touches only property attributes. */
  lemma SetPropertiesKeepsOthers(m: map<string, Attr>, props: seq<PropVal>, hasText: string -> bool, k: string)
    requires !IsPropKey(k)
    ensures k in AfterSetProperties(m, props, hasText) <==> k in m
    ensures k in m ==> AfterSetProperties(m, props, hasText)[k] == m[k]
  {
    var e := EncodeAll(props, hasText, 0);
    EncodedKeysDistinct(props, hasText, 0);
    StoreAllContents(Unprefixed(m), e);
  }

  /** After `setProperties`, the property attributes are exactly the stored entries, one per storable property. */
  lemma SetPropertiesStoresEach(m: map<string, Attr>, props: seq<PropVal>, hasText: string -> bool, k: string)
    requires IsPropKey(k)
    ensures k in AfterSetProperties(m, props, hasText) <==> k in KeysOf(EncodeAll(props, hasText, 0))
  {
    var e := EncodeAll(props, hasText, 0);
    EncodedKeysDistinct(props, hasText, 0);
    StoreAllContents(Unprefixed(m), e);
  }

  /** After `setProperties`, each stored entry holds its property's flag and value. */
  lemma SetPropertiesStoredValue(m: map<string, Attr>, props: seq<PropVal>, hasText: string -> bool, i: nat)
    requires i < |Storable(props, hasText)|
    ensures var key := EncodeKey(Storable(props, hasText)[i].name, i);
      key in AfterSetProperties(m, props, hasText)
      && AfterSetProperties(m, props, hasText)[key] == Str(EncodeValue(Storable(props, hasText)[i]))
  {
    var e := EncodeAll(props, hasText, 0);
    EncodeAllShape(props, hasText, 0);
    EncodedKeysDistinct(props, hasText, 0);
    StoreAllContents(Unprefixed(m), e);
    assert e[i] == StoredProp(Storable(props, hasText)[i], i);
    assert e[i].Key() in KeysOf(e);
  }

  // ---------------------------------------------------------------------------
  // getProperties over the whole attribute map
  // ---------------------------------------------------------------------------

  /** What `getProperties` collects from key `k`: zero or one property. */
  function DecodeAt(m: map<string, Attr>, k: string): seq<PropVal> {
    if k in m then
      match DecodeEntry(k, m[k])
      case Some(p) => [p]
      case None => []
    else []
  }

  /** The parts `f` gives for the keys of `order`, concatenated in that order. */
  function Collect<K, V>(f: K -> seq<V>, order: seq<K>): seq<V> {
    if order == [] then []
    else Collect(f, order[..|order| - 1]) + f(order[|order| - 1])
  }

  /** Collecting over two orders one after the other. */
  lemma {:induction false} CollectAppend<K, V>(f: K -> seq<V>, a: seq<K>, b: seq<K>)
    ensures Collect(f, a + b) == Collect(f, a) + Collect(f, b)
    decreases |b|
  {
    if b != [] {
      var b' := b[..|b| - 1];
      assert (a + b)[..|a + b| - 1] == a + b';
      CollectAppend(f, a, b');
    } else {
      assert a + b == a;
    }
  }

  /** A part moved to the end leaves the multiset unchanged. */
  lemma MultisetMiddle<V>(a: seq<V>, x: seq<V>, b: seq<V>)
    ensures multiset(a + x + b) == multiset(a + b) + multiset(x)
  {
  }

  /** A sequence is what comes before index `j`, the element at `j`, and what comes after. */
  lemma SplitAround<K>(o: seq<K>, j: nat)
    requires j < |o|
    ensures o == o[..j] + ([o[j]] + o[j + 1..])
  {
    assert o[j..] == [o[j]] + o[j + 1..];
    assert o == o[..j] + o[j..];
  }

  /** Collecting around one key in the middle. */
  lemma CollectMiddle<K, V>(f: K -> seq<V>, a: seq<K>, x: K, b: seq<K>)
    ensures Collect(f, a + ([x] + b)) == Collect(f, a) + f(x) + Collect(f, b)
  {
    assert a + ([x] + b) == a + [x] + b;
    assert Collect(f, [x]) == f(x) by {
      assert [x][..0] == [];
    }
    CollectAppend(f, a, [x]);
    CollectAppend(f, a + [x], b);
  }

  /** Taking the key at index `j` out of the order takes its part out of the result. */
  lemma CollectWithout<K, V>(f: K -> seq<V>, o: seq<K>, j: nat)
    requires j < |o|
    ensures multiset(Collect(f, o)) == multiset(Collect(f, o[..j] + o[j + 1..])) + multiset(f(o[j]))
  {
    SplitAround(o, j);
    CollectMiddle(f, o[..j], o[j], o[j + 1..]);
    CollectAppend(f, o[..j], o[j + 1..]);
    MultisetMiddle(Collect(f, o[..j]), f(o[j]), Collect(f, o[j + 1..]));
  }

  /** Removing the same element from two permutations leaves two permutations. */
  lemma PermutationWithout<K>(o1: seq<K>, o2: seq<K>, j: nat)
    requires multiset(o1) == multiset(o2) && o1 != []
    requires j < |o2| && o2[j] == o1[|o1| - 1]
    ensures multiset(o1[..|o1| - 1]) == multiset(o2[..j] + o2[j + 1..])
  {
    var n := |o1| - 1;
    assert o1 == o1[..n] + [o1[n]];
    assert o2 == o2[..j] + [o2[j]] + o2[j + 1..];
    assert multiset(o1[..n]) == multiset(o1) - multiset{o1[n]};
    assert multiset(o2[..j] + o2[j + 1..]) == multiset(o2) - multiset{o2[j]};
  }

  /** The collected parts, as a multiset, do not depend on the order. */
  lemma {:induction false} CollectPermutation<K, V>(f: K -> seq<V>, o1: seq<K>, o2: seq<K>)
    requires multiset(o1) == multiset(o2)
    ensures multiset(Collect(f, o1)) == multiset(Collect(f, o2))
    decreases |o1|
  {
    if o1 == [] {
      assert |o2| == |multiset(o2)| == 0;
    } else {
      var n := |o1| - 1;
      assert o1[n] in multiset(o2);
      var j :| 0 <= j < |o2| && o2[j] == o1[n];
      PermutationWithout(o1, o2, j);
      CollectPermutation(f, o1[..n], o2[..j] + o2[j + 1..]);
      CollectWithout(f, o2, j);
    }
  }

  /** Keys each giving exactly the matching value collect to those values, in order. */
  lemma {:induction false} CollectInOrder<K, V>(f: K -> seq<V>, keys: seq<K>, vals: seq<V>)
    requires |keys| == |vals|
    requires forall i :: 0 <= i < |keys| ==> f(keys[i]) == [vals[i]]
    ensures Collect(f, keys) == vals
    decreases |keys|
  {
    if keys != [] {
      var n := |keys| - 1;
      CollectInOrder(f, keys[..n], vals[..n]);
      assert vals == vals[..n] + [vals[n]];
    }
  }

  /** Keys giving nothing collect to nothing. */
  lemma {:induction false} CollectNothing<K, V>(f: K -> seq<V>, order: seq<K>)
    requires forall k :: k in order ==> f(k) == []
    ensures Collect(f, order) == []
    decreases |order|
  {
    if order != [] {
      assert order[|order| - 1] in order;
      assert forall k :: k in order[..|order| - 1] ==> k in order;
      CollectNothing(f, order[..|order| - 1]);
    }
  }

  /** `DecodeAt` over the map `m`, as a function of the key alone. */
  function DecodeAtIn(m: map<string, Attr>): string -> seq<PropVal> {
    k => DecodeAt(m, k)
  }

  /**
   * What `getProperties` returns when the map's entries are visited in the
   * order `order` (the map decides that order; keys absent from it yield nothing).
   */
  function Decoded(m: map<string, Attr>, order: seq<string>): seq<PropVal> {
    Collect(DecodeAtIn(m), order)
  }

  /** True iff `order` visits every key of `keys` exactly once and nothing else. */
  ghost predicate Enumerates(order: seq<string>, keys: set<string>) {
    Distinct(order) && forall k :: k in order <==> k in keys
  }

  /** The collected properties, as a multiset, do not depend on the visiting order. */
  lemma DecodedPermutation(m: map<string, Attr>, o1: seq<string>, o2: seq<string>)
    requires multiset(o1) == multiset(o2)
    ensures multiset(Decoded(m, o1)) == multiset(Decoded(m, o2))
  {
    CollectPermutation(DecodeAtIn(m), o1, o2);
  }

  /** The properties of stored entries, in order. */
  function PropsOf(stored: seq<StoredProp>): (r: seq<PropVal>)
    ensures |r| == |stored|
    ensures forall i :: 0 <= i < |r| ==> r[i] == stored[i].prop
  {
    seq(|stored|, i requires 0 <= i < |stored| => stored[i].prop)
  }

  /** Keys visited in the order they were written decode to the written properties. */
  lemma DecodedStoredKeys(m: map<string, Attr>, stored: seq<StoredProp>)
    requires forall i :: 0 <= i < |stored| ==> stored[i].Key() in m && m[stored[i].Key()] == Str(stored[i].Value())
    ensures Decoded(m, KeysOf(stored)) == PropsOf(stored)
  {
    forall i | 0 <= i < |stored|
      ensures DecodeAtIn(m)(KeysOf(stored)[i]) == [PropsOf(stored)[i]]
    {
      DecodeEncodedEntry(stored[i].prop, stored[i].oid);
    }
    CollectInOrder(DecodeAtIn(m), KeysOf(stored), PropsOf(stored));
  }

  /** Non-property keys contribute nothing. */
  lemma DecodedOthers(m: map<string, Attr>, order: seq<string>)
    requires forall k :: k in order ==> !IsPropKey(k)
    ensures Decoded(m, order) == []
  {
    CollectNothing(DecodeAtIn(m), order);
  }

  /** The keys of `order` that are not property attributes, in order. */
  function OtherKeys(order: seq<string>): (r: seq<string>)
    ensures forall k :: k in r <==> k in order && !IsPropKey(k)
    ensures Distinct(order) ==> Distinct(r)
  {
    if order == [] then []
    else
      var rest := OtherKeys(order[1..]);
      assert forall k :: k in order[1..] ==> k in order;
      assert Distinct(order) ==> order[0] !in order[1..];
      if IsPropKey(order[0]) then rest else [order[0]] + rest
  }

  /** In a sequence without repetitions every element occurs once. */
  lemma {:induction false} DistinctOccursOnce<T>(s: seq<T>)
    requires Distinct(s)
    ensures forall x :: multiset(s)[x] == if x in s then 1 else 0
  {
    if s != [] {
      DistinctOccursOnce(s[1..]);
      assert s == [s[0]] + s[1..];
      assert s[0] !in s[1..];
    }
  }

  /** Two sequences without repetitions and with the same elements are permutations of each other. */
  lemma DistinctSameElements<T>(a: seq<T>, b: seq<T>)
    requires Distinct(a) && Distinct(b)
    requires forall x :: x in a <==> x in b
    ensures multiset(a) == multiset(b)
  {
    DistinctOccursOnce(a);
    DistinctOccursOnce(b);
    assert forall x :: multiset(a)[x] == multiset(b)[x];
  }

  /**
   * The round trip: reading the properties back after `setProperties`, in
   * whatever order the map visits its keys, gives exactly the storable
   * properties, each with its name, value and check flag, as a multiset.
   */
  lemma SetThenGetRoundTrip(m: map<string, Attr>, props: seq<PropVal>, hasText: string -> bool, order: seq<string>)
    requires Enumerates(order, AfterSetProperties(m, props, hasText).Keys)
    ensures multiset(Decoded(AfterSetProperties(m, props, hasText), order)) == multiset(Storable(props, hasText))
  {
    var after := AfterSetProperties(m, props, hasText);
    var e := EncodeAll(props, hasText, 0);
    var keys := KeysOf(e);
    var others := OtherKeys(order);
    EncodedKeysDistinct(props, hasText, 0);
    StoreAllContents(Unprefixed(m), e);
    StoredKeysFirst(m, props, hasText, order);
    DecodedPermutation(after, order, keys + others);
    CollectAppend(DecodeAtIn(after), keys, others);
    DecodedOthers(after, others);
    DecodedStoredKeys(after, e);
    EncodeAllShape(props, hasText, 0);
    assert PropsOf(e) == Storable(props, hasText);
  }

  /** Any visiting order is a permutation of: the stored keys in writing order, then the other keys. */
  lemma StoredKeysFirst(m: map<string, Attr>, props: seq<PropVal>, hasText: string -> bool, order: seq<string>)
    requires Enumerates(order, AfterSetProperties(m, props, hasText).Keys)
    ensures multiset(order) == multiset(KeysOf(EncodeAll(props, hasText, 0)) + OtherKeys(order))
  {
    var e := EncodeAll(props, hasText, 0);
    var keys := KeysOf(e);
    var others := OtherKeys(order);
    EncodedKeysDistinct(props, hasText, 0);
    StoreAllContents(Unprefixed(m), e);
    assert forall k :: k in keys ==> IsPropKey(k);
    assert Distinct(keys + others) by {
      forall i, j | 0 <= i < j < |keys + others| ensures (keys + others)[i] != (keys + others)[j] {
        if j >= |keys| && i < |keys| {
          assert (keys + others)[j] in others;
          assert (keys + others)[i] in keys;
        }
      }
    }
    assert forall k :: k in order <==> k in keys + others;
    DistinctSameElements(order, keys + others);
  }

  // ---------------------------------------------------------------------------
  // Program arguments (addPropertiesArguments, propertyAssignmentArgument)
  // ---------------------------------------------------------------------------

  /**
   * Spring Boot's reading of an option argument `--name=value`: the name ends
   * at the first `'='`; an empty name or an empty value is not accepted.
   */
  function ParseOptionArgument(arg: string): Option<(string, string)> {
    if !HasPrefix(arg, "--") then None
    else match SplitAssignment(arg[2..])
      case Some((name, value)) => if name != "" && value != "" then Some((name, value)) else None
      case None => None
  }

  /** The message of the IllegalArgumentException for a name holding `'='`. */
  function NameHasEqualsMessage(name: string): string {
    "property name shouldn't contain '=':" + name
  }

  /**
   * `propertyAssignmentArgument`: fails exactly when the name holds `'='`,
   * which Spring Boot could not read back; otherwise `--name=value`, which
   * Spring Boot reads as this very name and value when both are non-empty,
   * and rejects when either is empty.
   */
  function PropertyAssignmentArgument(name: string, value: string): (r: Result<string, string>)
    ensures r.Failure? <==> '=' in name
    ensures r.Failure? ==> r.error == NameHasEqualsMessage(name)
    ensures r.Success? ==> r.value == "--" + name + "=" + value
    ensures r.Success? && name != "" && value != "" ==> ParseOptionArgument(r.value) == Some((name, value))
    ensures r.Success? && (name == "" || value == "") ==> ParseOptionArgument(r.value) == None
  {
    if '=' in name then Failure(NameHasEqualsMessage(name))
    else
      var arg := "--" + name + "=" + value;
      assert arg[2..] == name + "=" + value;
      SplitAssignmentAfterName(name, value);
      Success(arg)
  }

  /** Spring Boot rejects empty option keys and values, so only these become arguments. */
  predicate IsArgument(p: PropVal) {
    p.isChecked && p.name != "" && p.value != ""
  }

  /** The properties that become arguments, in input order. */
  function ArgumentProps(props: seq<PropVal>): (r: seq<PropVal>)
    ensures forall p :: p in r ==> p in props && IsArgument(p)
  {
    if props == [] then []
    else if IsArgument(props[0]) then [props[0]] + ArgumentProps(props[1..])
    else ArgumentProps(props[1..])
  }

  /** Every property that becomes an argument is among ArgumentProps. */
  lemma {:induction false} ArgumentPropsMembers(props: seq<PropVal>)
    ensures forall p :: p in ArgumentProps(props) <==> p in props && IsArgument(p)
  {
    if props != [] {
      ArgumentPropsMembers(props[1..]);
      assert forall p :: p in props <==> p == props[0] || p in props[1..];
    }
  }

  /** Arguments keep the input order: those of a concatenation are those of each part, in turn. */
  lemma {:induction false} ArgumentPropsAppend(a: seq<PropVal>, b: seq<PropVal>)
    ensures ArgumentProps(a + b) == ArgumentProps(a) + ArgumentProps(b)
    ensures ArgumentProps([]) == []
    ensures forall p :: ArgumentProps([p]) == if IsArgument(p) then [p] else []
    decreases |a|
  {
    if a == [] {
      assert a + b == b;
    } else {
      assert (a + b)[1..] == a[1..] + b;
      ArgumentPropsAppend(a[1..], b);
    }
    forall p ensures ArgumentProps([p]) == if IsArgument(p) then [p] else [] {
      assert [p][1..] == [];
    }
  }

  /** What `addPropertiesArguments` appends, and the exception it ends with, if any. */
  datatype ArgsOutcome = ArgsOutcome(added: seq<string>, error: Option<string>)

  /**
   * `addPropertiesArguments` as a function: one `--name=value` argument per
   * property in ArgumentProps, in order; it stops at the first such property
   * whose name holds `'='`.
   */
  function PropertiesArguments(props: seq<PropVal>): (r: ArgsOutcome)
    ensures |r.added| <= |ArgumentProps(props)|
    ensures forall i :: 0 <= i < |r.added| ==>
      var p := ArgumentProps(props)[i];
      r.added[i] == "--" + p.name + "=" + p.value && '=' !in p.name
    ensures r.error.None? ==> |r.added| == |ArgumentProps(props)|
  {
    if props == [] then ArgsOutcome([], None)
    else if IsArgument(props[0]) then
      match PropertyAssignmentArgument(props[0].name, props[0].value)
      case Failure(e) => ArgsOutcome([], Some(e))
      case Success(arg) =>
        var rest := PropertiesArguments(props[1..]);
        ArgsOutcome([arg] + rest.added, rest.error)
    else PropertiesArguments(props[1..])
  }

  /**
   * `addPropertiesArguments`: appends to `args`, in input order, one
   * `--name=value` argument per checked property with a non-empty name and
   * value; the arguments already in `args` stay as they are. A name holding
   * `'='` ends the loop with the exception, after the arguments appended so far.
   */
  method AddPropertiesArguments(args: seq<string>, props: seq<PropVal>) returns (out: seq<string>, error: Option<string>)
    ensures out == args + PropertiesArguments(props).added
    ensures error == PropertiesArguments(props).error
  {
    out := args;
    error := None;
    var i := 0;
    while i < |props|
      invariant 0 <= i <= |props|
      invariant out + PropertiesArguments(props[i..]).added == args + PropertiesArguments(props).added
      invariant PropertiesArguments(props[i..]).error == PropertiesArguments(props).error
    {
      var p := props[i];
      PropertiesArgumentsStep(props, i);
      if p.isChecked && p.name != "" && p.value != "" {
        var arg := PropertyAssignmentArgument(p.name, p.value);
        if arg.Failure? {
          error := Some(arg.error);
          return;
        }
        out := out + [arg.value];
      }
      i := i + 1;
    }
    assert props[i..] == [];
  }

  /** One step of `addPropertiesArguments`' loop: the outcome from position `i` on. */
  lemma PropertiesArgumentsStep(props: seq<PropVal>, i: nat)
    requires i < |props|
    ensures !IsArgument(props[i]) ==> PropertiesArguments(props[i..]) == PropertiesArguments(props[i + 1..])
    ensures IsArgument(props[i]) && '=' in props[i].name ==>
      PropertiesArguments(props[i..]) == ArgsOutcome([], Some(NameHasEqualsMessage(props[i].name)))
    ensures IsArgument(props[i]) && '=' !in props[i].name ==>
      var rest := PropertiesArguments(props[i + 1..]);
      PropertiesArguments(props[i..]) == ArgsOutcome(["--" + props[i].name + "=" + props[i].value] + rest.added, rest.error)
  {
    assert props[i..][1..] == props[i + 1..];
  }

  /** Spring Boot reads each argument added back as the property it came from. */
  lemma PropertiesArgumentsParseBack(props: seq<PropVal>)
    ensures var r := PropertiesArguments(props);
      forall i :: 0 <= i < |r.added| ==>
        ParseOptionArgument(r.added[i]) == Some((ArgumentProps(props)[i].name, ArgumentProps(props)[i].value))
  {
    var r := PropertiesArguments(props);
    forall i | 0 <= i < |r.added|
      ensures ParseOptionArgument(r.added[i]) == Some((ArgumentProps(props)[i].name, ArgumentProps(props)[i].value))
    {
      var p := ArgumentProps(props)[i];
      assert PropertyAssignmentArgument(p.name, p.value) == Success(r.added[i]);
    }
  }

  /**
   * On an exception, the arguments added are those of the properties before
   * the first argument property whose name holds `'='` (PropertiesArguments
   * states that none of them holds one), and the exception names that property.
   */
  predicate StopsAtFirstEquals(props: seq<PropVal>) {
    var r := PropertiesArguments(props);
    var ap := ArgumentProps(props);
    r.error.Some? ==>
      && |r.added| < |ap|
      && '=' in ap[|r.added|].name
      && r.error == Some(NameHasEqualsMessage(ap[|r.added|].name))
  }

  /** A property that becomes an argument without error shifts the stopping point by one. */
  lemma StopsAfterArgument(props: seq<PropVal>)
    requires props != [] && IsArgument(props[0]) && '=' !in props[0].name
    requires StopsAtFirstEquals(props[1..])
    ensures StopsAtFirstEquals(props)
  {
    var p := props[0];
    var ap, ap' := ArgumentProps(props), ArgumentProps(props[1..]);
    var r, r' := PropertiesArguments(props), PropertiesArguments(props[1..]);
    assert ap == [p] + ap';
    assert |r.added| == 1 + |r'.added| && r.error == r'.error;
    if r.error.Some? {
      assert ap[|r.added|] == ap'[|r'.added|];
    }
  }

  lemma {:induction false} PropertiesArgumentsStops(props: seq<PropVal>)
    ensures StopsAtFirstEquals(props)
  {
    if props != [] {
      var p := props[0];
      PropertiesArgumentsStops(props[1..]);
      if !IsArgument(p) {
        assert ArgumentProps(props) == ArgumentProps(props[1..]);
        assert PropertiesArguments(props) == PropertiesArguments(props[1..]);
      } else if '=' in p.name {
        assert PropertiesArguments(props) == ArgsOutcome([], Some(NameHasEqualsMessage(p.name)));
        assert ArgumentProps(props)[0] == p;
      } else {
        StopsAfterArgument(props);
      }
    }
  }

  /** The argument list fails exactly when some property that becomes an argument has `'='` in its name. */
  lemma {:induction false} PropertiesArgumentsFails(props: seq<PropVal>)
    ensures PropertiesArguments(props).error.Some? <==>
      exists i :: 0 <= i < |props| && IsArgument(props[i]) && '=' in props[i].name
  {
    if props != [] {
      PropertiesArgumentsFails(props[1..]);
      assert forall i :: 1 <= i < |props| ==> props[i] == props[1..][i - 1];
      if exists i :: 1 <= i < |props| && IsArgument(props[i]) && '=' in props[i].name {
        var i :| 1 <= i < |props| && IsArgument(props[i]) && '=' in props[i].name;
        assert IsArgument(props[1..][i - 1]) && '=' in props[1..][i - 1].name;
      }
    }
  }
}
