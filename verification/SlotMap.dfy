/** The map from live operations to their futures: a fixed array of slots searched from the front. */
module SlotMap {

  const CAPACITY: nat := 100
  const NULL: nat := 0

  type Pointer = nat

  datatype Elem = Elem(key: Pointer, value: Pointer)

  const EMPTY: Elem := Elem(NULL, NULL)

  // ------------------------------------------------------------------ specification on the slots

  /** The first slot with that key, or the number of slots. */
  function FirstWith(s: seq<Elem>, key: Pointer): (i: nat)
    ensures i <= |s|
    ensures i < |s| ==> s[i].key == key
    ensures forall j | 0 <= j < i :: s[j].key != key
  {
    if s == [] || s[0].key == key then 0 else 1 + FirstWith(s[1..], key)
  }

  predicate Full(s: seq<Elem>) {
    FirstWith(s, NULL) == |s|
  }

  function WithSet(s: seq<Elem>, key: Pointer, value: Pointer): seq<Elem> {
    if Full(s) then s else s[FirstWith(s, NULL) := Elem(key, value)]
  }

  function Found(s: seq<Elem>, key: Pointer): Pointer {
    var i := FirstWith(s, key);
    if i == |s| then NULL else s[i].value
  }

  function WithPopped(s: seq<Elem>, key: Pointer): seq<Elem> {
    var i := FirstWith(s, key);
    if i == |s| then s else s[i := EMPTY]
  }

  /** A slot is empty or holds a key and a value that are both not null. */
  predicate WellFormed(s: seq<Elem>) {
    forall i | 0 <= i < |s| :: s[i].key == NULL <==> s[i].value == NULL
  }

  // ------------------------------------------------------------------ the keys in use

  function Keys(s: seq<Elem>): seq<Pointer> {
    seq(|s|, i requires 0 <= i < |s| => s[i].key)
  }

  /** The keys in use, as often as they occur. */
  function Used(s: seq<Elem>): multiset<Pointer> {
    multiset(Keys(s))[NULL := 0]
  }

  lemma KeysAfterUpdate(s: seq<Elem>, i: nat, e: Elem)
    requires i < |s|
    ensures multiset(Keys(s[i := e])) == multiset(Keys(s)) - multiset{s[i].key} + multiset{e.key}
  {
    assert Keys(s[i := e]) == Keys(s)[i := e.key];
  }

  lemma OccursIff(s: seq<Elem>, key: Pointer)
    ensures FirstWith(s, key) < |s| <==> key in multiset(Keys(s))
  {
    if key in multiset(Keys(s)) {
      assert key in Keys(s);
      var i :| 0 <= i < |s| && Keys(s)[i] == key;
    }
    assert FirstWith(s, key) < |s| ==> Keys(s)[FirstWith(s, key)] == key;
  }

  lemma SetAddsKey(s: seq<Elem>, key: Pointer, value: Pointer)
    requires !Full(s) && key != NULL
    ensures Used(WithSet(s, key, value)) == Used(s) + multiset{key}
  {
    KeysAfterUpdate(s, FirstWith(s, NULL), Elem(key, value));
  }

  lemma PopRemovesKey(s: seq<Elem>, key: Pointer)
    requires key != NULL
    ensures Used(WithPopped(s, key)) == Used(s) - multiset{key}
    ensures key in Used(s) <==> FirstWith(s, key) < |s|
  {
    OccursIff(s, key);
    if FirstWith(s, key) < |s| {
      KeysAfterUpdate(s, FirstWith(s, key), EMPTY);
    }
  }

  lemma {:induction false} NullCount(keys: seq<Pointer>)
    ensures |multiset(keys)[NULL := 0]| + multiset(keys)[NULL] == |keys|
  {
    var m := multiset(keys);
    assert m == m[NULL := 0][NULL := m[NULL]];
    assert |m| == |keys|;
  }

  /** The array is full exactly when as many keys are in use as there are slots. */
  lemma FullIff(s: seq<Elem>)
    ensures |Used(s)| <= |s|
    ensures Full(s) <==> |Used(s)| == |s|
  {
    OccursIff(s, NULL);
    NullCount(Keys(s));
  }

  // ------------------------------------------------------------------ the finite map

  predicate DistinctKeys(s: seq<Elem>) {
    forall i, j | 0 <= i < j < |s| :: s[i].key != NULL ==> s[i].key != s[j].key
  }

  function AsMap(s: seq<Elem>): map<Pointer, Pointer> {
    map i | 0 <= i < |s| && s[i].key != NULL && FirstWith(s, s[i].key) == i :: s[i].key := s[i].value
  }

  lemma Lookup(s: seq<Elem>, key: Pointer)
    ensures key in AsMap(s) <==> key != NULL && FirstWith(s, key) < |s|
    ensures key in AsMap(s) ==> AsMap(s)[key] == Found(s, key)
  {
  }

  lemma FirstElsewhere(s: seq<Elem>, i: nat, e: Elem, key: Pointer)
    requires i < |s| && key != s[i].key && key != e.key
    ensures FirstWith(s[i := e], key) == FirstWith(s, key)
  {
    var p, q := FirstWith(s, key), FirstWith(s[i := e], key);
    assert p < |s| ==> s[i := e][p] == s[p];
    assert q < |s| ==> s[i := e][q] == s[q];
  }

  lemma UpdateElsewhere(s: seq<Elem>, i: nat, e: Elem, key: Pointer)
    requires i < |s| && key != s[i].key && key != e.key
    ensures key in AsMap(s[i := e]) <==> key in AsMap(s)
    ensures key in AsMap(s) ==> AsMap(s[i := e])[key] == AsMap(s)[key]
  {
    FirstElsewhere(s, i, e, key);
    Lookup(s, key);
    Lookup(s[i := e], key);
  }

  lemma DistinctAfterUpdate(s: seq<Elem>, i: nat, e: Elem)
    requires DistinctKeys(s) && i < |s| && (e.key == NULL || FirstWith(s, e.key) == |s|)
    ensures DistinctKeys(s[i := e])
  {
    var t := s[i := e];
    forall j, k | 0 <= j < k < |t| && t[j].key != NULL
      ensures t[j].key != t[k].key
    {
      assert t[j] == if j == i then e else s[j];
      assert t[k] == if k == i then e else s[k];
    }
  }

  lemma FirstIs(s: seq<Elem>, i: nat)
    requires DistinctKeys(s) && i < |s| && s[i].key != NULL
    ensures FirstWith(s, s[i].key) == i
  {
  }

  lemma NotElsewhere(s: seq<Elem>, i: nat)
    requires DistinctKeys(s) && i < |s| && s[i].key != NULL
    ensures FirstWith(s[i := EMPTY], s[i].key) == |s|
  {
    var t := s[i := EMPTY];
    assert forall j | 0 <= j < |t| && j != i :: t[j] == s[j];
  }

  /** Storing under a key that is not in use extends the map. */
  lemma SetExtendsMap(s: seq<Elem>, key: Pointer, value: Pointer)
    requires DistinctKeys(s) && !Full(s) && key != NULL && key !in AsMap(s)
    ensures DistinctKeys(WithSet(s, key, value)) && AsMap(WithSet(s, key, value)) == AsMap(s)[key := value]
  {
    Lookup(s, key);
    SetExtends(s, FirstWith(s, NULL), key, value);
  }

  lemma SetExtends(s: seq<Elem>, i: nat, key: Pointer, value: Pointer)
    requires DistinctKeys(s) && i < |s| && s[i].key == NULL && key != NULL && FirstWith(s, key) == |s|
    ensures DistinctKeys(s[i := Elem(key, value)]) && AsMap(s[i := Elem(key, value)]) == AsMap(s)[key := value]
  {
    DistinctAfterUpdate(s, i, Elem(key, value));
    FirstIs(s[i := Elem(key, value)], i);
    Lookup(s[i := Elem(key, value)], key);
    MapUpdated(s, i, Elem(key, value), AsMap(s)[key := value], key);
  }

  /** A map that agrees with the new array at `key`, and with the old one elsewhere, is the new map. */
  lemma MapUpdated(s: seq<Elem>, i: nat, e: Elem, m: map<Pointer, Pointer>, key: Pointer)
    requires i < |s| && s[i].key in {NULL, key} && e.key in {NULL, key} && NULL !in m
    requires key in m <==> key in AsMap(s[i := e])
    requires key in m ==> m[key] == AsMap(s[i := e])[key]
    requires m - {key} == AsMap(s) - {key}
    ensures AsMap(s[i := e]) == m
  {
    var n := AsMap(s[i := e]);
    forall k
      ensures k in n <==> k in m
      ensures k in m ==> n[k] == m[k]
    {
      if k != key && k != NULL {
        UpdateElsewhere(s, i, e, k);
        assert k in m <==> k in m - {key};
        assert k in AsMap(s) <==> k in AsMap(s) - {key};
      }
    }
  }

  /** Popping returns what the map holds under the key and removes it. */
  lemma PopShrinksMap(s: seq<Elem>, key: Pointer)
    requires DistinctKeys(s) && key != NULL
    ensures DistinctKeys(WithPopped(s, key)) && AsMap(WithPopped(s, key)) == AsMap(s) - {key}
    ensures Found(s, key) == if key in AsMap(s) then AsMap(s)[key] else NULL
  {
    Lookup(s, key);
    if FirstWith(s, key) < |s| {
      PopShrinks(s, FirstWith(s, key));
    } else {
      assert AsMap(s) - {key} == AsMap(s);
    }
  }

  lemma PopShrinks(s: seq<Elem>, i: nat)
    requires DistinctKeys(s) && i < |s| && s[i].key != NULL
    ensures DistinctKeys(s[i := EMPTY]) && AsMap(s[i := EMPTY]) == AsMap(s) - {s[i].key}
  {
    DistinctAfterUpdate(s, i, EMPTY);
    NotElsewhere(s, i);
    Lookup(s[i := EMPTY], s[i].key);
    MapUpdated(s, i, EMPTY, AsMap(s) - {s[i].key}, s[i].key);
  }

  /** The size of the map is the number of keys in use. */
  lemma MapSize(s: seq<Elem>)
    requires DistinctKeys(s)
    ensures |AsMap(s)| == |Used(s)|
  {
    forall k | k != NULL
      ensures multiset(AsMap(s).Keys)[k] == Used(s)[k]
    {
      OccursIff(s, k);
      AtMostOnce(s, k);
    }
    assert NULL !in AsMap(s).Keys;
    assert multiset(AsMap(s).Keys) == Used(s);
  }

  lemma {:induction false} AtMostOnce(s: seq<Elem>, k: Pointer)
    requires DistinctKeys(s) && k != NULL
    ensures multiset(Keys(s))[k] <= 1
  {
    if s != [] {
      var front, n := s[..|s| - 1], |s| - 1;
      AtMostOnce(front, k);
      assert Keys(s) == Keys(front) + [s[n].key];
      if s[n].key == k {
        OccursIff(front, k);
      }
    }
  }

  // ------------------------------------------------------------------ the array

  class SlotArray {
    const slots: array<Elem>

    ghost predicate Valid()
      reads slots
    {
      slots.Length == CAPACITY && WellFormed(slots[..])
    }

    constructor ()
      ensures Valid() && slots.Length == 100 && AsMap(slots[..]) == map[]
    {
      slots := new Elem[CAPACITY](_ => EMPTY);
    }

    method Set(key: Pointer, value: Pointer) returns (r: int)
      requires Valid() && key != NULL && value != NULL
      modifies slots
      ensures Valid() && slots[..] == WithSet(old(slots[..]), key, value)
      ensures r == if Full(old(slots[..])) then -1 else 0
    {
      ghost var s := slots[..];
      ghost var k := FirstWith(s, NULL);
      for i := 0 to CAPACITY
        invariant i <= k && slots[..] == s
      {
        assert s[i] == slots[i];
        if slots[i].key == NULL {
          slots[i] := Elem(key, value);
          return 0;
        }
      }
      return -1;
    }

    method Pop(key: Pointer) returns (res: Pointer)
      requires Valid()
      modifies slots
      ensures Valid() && slots[..] == WithPopped(old(slots[..]), key)
      ensures res == Found(old(slots[..]), key)
    {
      ghost var s := slots[..];
      ghost var k := FirstWith(s, key);
      res := NULL;
      var i := 0;
      while res == NULL && i < CAPACITY
        invariant i <= CAPACITY
        invariant if res == NULL then (key == NULL || i <= k) && slots[..] == s
                  else key != NULL && k < CAPACITY && res == s[k].value && slots[..] == s[k := EMPTY]
        decreases CAPACITY - i
      {
        assert s[i] == slots[i];
        if slots[i].key == key {
          res := slots[i].value;
          slots[i] := EMPTY;
          assert key == NULL ==> slots[..] == s;
        }
        i := i + 1;
      }
      assert key == NULL && k < CAPACITY ==> s[k := EMPTY] == s;
    }

    /** The key of the first slot in use. */
    method Remained() returns (res: Pointer)
      requires Valid()
      ensures if exists i :: 0 <= i < CAPACITY && slots[i].key != NULL
              then exists i :: 0 <= i < CAPACITY && res == slots[i].key != NULL && forall j | 0 <= j < i :: slots[j].key == NULL
              else res == NULL
    {
      res := NULL;
      var i := 0;
      while res == NULL && i < CAPACITY
        invariant i <= CAPACITY
        invariant res == NULL ==> forall j | 0 <= j < i :: slots[j].key == NULL
        invariant res != NULL ==> 0 < i && res == slots[i - 1].key && forall j | 0 <= j < i - 1 :: slots[j].key == NULL
        decreases CAPACITY - i
      {
        if slots[i].key != NULL {
          res := slots[i].key;
        }
        i := i + 1;
      }
    }

    method IsEmpty() returns (empty: bool)
      requires Valid()
      ensures empty <==> AsMap(slots[..]) == map[]
    {
      var found := false;
      var i := 0;
      while !found && i < CAPACITY
        invariant i <= CAPACITY
        invariant if found then 0 < i && slots[i - 1].key != NULL else forall j | 0 <= j < i :: slots[j].key == NULL
        decreases CAPACITY - i
      {
        found := slots[i].key != NULL;
        i := i + 1;
      }
      if found {
        assert slots[..][i - 1].key in AsMap(slots[..]) by {
          var k := FirstWith(slots[..], slots[i - 1].key);
          assert slots[..][k].key == slots[i - 1].key;
        }
      }
      return !found;
    }

    method Clear()
      requires Valid()
      modifies slots
      ensures Valid() && (forall j | 0 <= j < CAPACITY :: slots[j] == EMPTY) && AsMap(slots[..]) == map[]
    {
      for i := 0 to CAPACITY
        invariant forall j | 0 <= j < i :: slots[j] == EMPTY
      {
        slots[i] := EMPTY;
      }
    }
  }
}
