/** Attributes cached on communicators, windows and datatypes: key numbers, reference
    counts and the order of deletion. */
module Attributes {
  import QueueSpec

  datatype Kind = Comm | Win | Datatype
  datatype Keyval = Keyval(kind: Kind, predefined: bool, refs: nat)
  datatype Attr = Attr(value: int, sequence: nat)
  datatype Call = Call(obj: nat, key: int, ok: bool)   // a delete callback and its verdict
  datatype Answer = Answer(key: int, ok: bool, flag: bool, value: int)   // of a copy callback
  datatype Result = Success | BadParam | OutOfResource | CallbackFailed

  type Keyvals = map<int, Keyval>
  type Objects = map<nat, map<int, Attr>>

  const PREDEFINED_KEYS := 13
  const MAX_KEYS := 0x7fff_ffff

  /** The objects that cache an attribute under a key. */
  function Users(objs: Objects, key: int): set<nat>
  {
    set o | o in objs && key in objs[o]
  }

  /** The count of a key: one for itself until it is freed, and one for every object using it. */
  ghost predicate RefsOk(keyvals: Keyvals, objs: Objects, freed: set<int>, key: int)
    requires key in keyvals
  {
    keyvals[key].refs == (if key in freed then 0 else 1) + |Users(objs, key)| && keyvals[key].refs > 0
  }

  ghost predicate Counts(keyvals: Keyvals, objs: Objects, freed: set<int>)
  {
    freed <= keyvals.Keys && forall key | key in keyvals :: RefsOk(keyvals, objs, freed, key)
  }

  /** An attribute sits under an existing key of its object's kind, and was set before now. */
  ghost predicate AttrOk(keyvals: Keyvals, kinds: map<nat, Kind>, objs: Objects, now: nat, o: nat, key: int)
    requires o in objs && key in objs[o]
  {
    key in keyvals && o in kinds && keyvals[key].kind == kinds[o] && objs[o][key].sequence < now
  }

  ghost predicate Cached(keyvals: Keyvals, kinds: map<nat, Kind>, objs: Objects, now: nat)
  {
    && objs.Keys == kinds.Keys
    && forall o, key | o in objs && key in objs[o] :: AttrOk(keyvals, kinds, objs, now, o, key)
  }

  predicate Later(attrs: map<int, Attr>, k1: int, k2: int)
    requires k1 in attrs && k2 in attrs
  {
    attrs[k1].sequence > attrs[k2].sequence
  }

  /** No two attributes of an object were set at the same time. */
  ghost predicate Timed(attrs: map<int, Attr>)
  {
    forall k1, k2 | k1 in attrs && k2 in attrs && k1 != k2 :: Later(attrs, k1, k2) || Later(attrs, k2, k1)
  }

  // ---------- What the operations do to the counts ----------

  lemma UsersAdd(objs: Objects, o: nat, key: int, a: Attr, other: int)
    requires o in objs
    ensures Users(objs[o := objs[o][key := a]], other) == if other == key then Users(objs, key) + {o}
        else Users(objs, other)
  {
  }

  lemma UsersRemove(objs: Objects, o: nat, key: int, other: int)
    requires o in objs
    ensures Users(objs[o := objs[o] - {key}], other) == if other == key then Users(objs, key) - {o}
        else Users(objs, other)
  {
  }

  lemma NotUsed(objs: Objects, key: int)
    ensures Users(objs, key) == {} ==> forall o | o in objs :: key !in objs[o]
  {
    forall o | o in objs ensures key in objs[o] ==> o in Users(objs, key) { }
  }

  function More(keyvals: Keyvals, key: int): Keyvals
    requires key in keyvals
  {
    keyvals[key := keyvals[key].(refs := keyvals[key].refs + 1)]
  }

  /** Giving up a reference; the last one removes the key. */
  function Less(keyvals: Keyvals, key: int): Keyvals
    requires key in keyvals && keyvals[key].refs > 0
  {
    if keyvals[key].refs == 1 then keyvals - {key} else keyvals[key := keyvals[key].(refs := keyvals[key].refs - 1)]
  }

  lemma CountsAdd(keyvals: Keyvals, objs: Objects, freed: set<int>, o: nat, key: int, a: Attr)
    requires Counts(keyvals, objs, freed) && o in objs && key in keyvals
    ensures Counts(if key in objs[o] then keyvals else More(keyvals, key), objs[o := objs[o][key := a]], freed)
  {
    hide Users;
    var after := if key in objs[o] then keyvals else More(keyvals, key);
    var objs2 := objs[o := objs[o][key := a]];
    InUsers(objs, o, key);
    forall k | k in after ensures RefsOk(after, objs2, freed, k) {
      assert RefsOk(keyvals, objs, freed, k);
      UsersAdd(objs, o, key, a, k);
      assert key in objs[o] ==> Users(objs, key) + {o} == Users(objs, key);
    }
  }

  lemma InUsers(objs: Objects, o: nat, key: int)
    requires o in objs
    ensures o in Users(objs, key) <==> key in objs[o]
  {
  }

  lemma CountsRemove(keyvals: Keyvals, objs: Objects, freed: set<int>, o: nat, key: int)
    requires Counts(keyvals, objs, freed) && o in objs && key in keyvals && key in objs[o]
    ensures keyvals[key].refs > 0
    ensures Counts(Less(keyvals, key), objs[o := objs[o] - {key}], freed * Less(keyvals, key).Keys)
    ensures key !in Less(keyvals, key) ==> forall x | x in objs && x != o :: key !in objs[x]
  {
    hide Users;
    assert RefsOk(keyvals, objs, freed, key);
    var after, objs2 := Less(keyvals, key), objs[o := objs[o] - {key}];
    InUsers(objs, o, key);
    forall k | k in after ensures RefsOk(after, objs2, freed * after.Keys, k) {
      assert RefsOk(keyvals, objs, freed, k);
      UsersRemove(objs, o, key, k);
    }
    UsersRemove(objs, o, key, key);
    NotUsed(objs2, key);
    if key !in after {
      assert Users(objs2, key) == {};
      forall x | x in objs && x != o ensures key !in objs[x] { assert objs2[x] == objs[x]; }
    }
  }

  lemma CountsFree(keyvals: Keyvals, objs: Objects, freed: set<int>, key: int)
    requires Counts(keyvals, objs, freed) && key in keyvals && key !in freed
    ensures keyvals[key].refs > 0
    ensures Counts(Less(keyvals, key), objs, (freed + {key}) * Less(keyvals, key).Keys)
    ensures key in Less(keyvals, key) <==> Users(objs, key) != {}
    ensures key !in Less(keyvals, key) ==> forall o | o in objs :: key !in objs[o]
  {
    hide Users;
    assert RefsOk(keyvals, objs, freed, key);
    var after := Less(keyvals, key);
    NotUsed(objs, key);
    forall k | k in after ensures RefsOk(after, objs, (freed + {key}) * after.Keys, k) {
      assert RefsOk(keyvals, objs, freed, k);
    }
  }

  lemma CountsNew(keyvals: Keyvals, objs: Objects, freed: set<int>, key: int, k: Keyval)
    requires Counts(keyvals, objs, freed) && key !in keyvals && k.refs == 1 && forall o | o in objs :: key !in objs[o]
    ensures Counts(keyvals[key := k], objs, freed)
  {
    hide Users;
    NobodyUses(objs, key);
    var after := keyvals[key := k];
    forall x | x in after ensures RefsOk(after, objs, freed, x) {
      assert x != key ==> RefsOk(keyvals, objs, freed, x);
    }
  }

  lemma NobodyUses(objs: Objects, key: int)
    requires forall o | o in objs :: key !in objs[o]
    ensures Users(objs, key) == {}
  {
  }

  lemma CountsObject(keyvals: Keyvals, objs: Objects, freed: set<int>, o: nat)
    requires Counts(keyvals, objs, freed) && o !in objs
    ensures Counts(keyvals, objs[o := map[]], freed)
  {
    forall key | key in keyvals ensures RefsOk(keyvals, objs[o := map[]], freed, key) {
      assert RefsOk(keyvals, objs, freed, key);
      assert Users(objs[o := map[]], key) == Users(objs, key);
    }
  }

  /** The numbers taken are those of the keys, and those set aside for predefined keys; none is lost. */
  ghost predicate Numbered(bitmap: set<int>, keyvals: Keyvals)
  {
    keyvals.Keys <= bitmap && forall x | x in bitmap :: x in keyvals || 0 <= x < PREDEFINED_KEYS
  }

  /** The same keys, up to their counts. */
  ghost predicate SameKeys(before: Keyvals, after: Keyvals)
  {
    after.Keys == before.Keys && forall key | key in after :: SameKey(before, after, key)
  }

  ghost predicate SameKey(before: Keyvals, after: Keyvals, key: int)
    requires key in before && key in after
  {
    after[key].kind == before[key].kind && after[key].predefined == before[key].predefined
  }

  /** The keys that are left: of those freed, the ones still in use. */
  ghost predicate KeysLeft(before: Keyvals, after: Keyvals, freed: set<int>, objs: Objects)
  {
    && (forall key :: key in after <==> key in before && (key !in freed || Users(objs, key) != {}))
    && forall key | key in after :: SameKey(before, after, key)
  }

  lemma AllLeft(keyvals: Keyvals, objs: Objects, freed: set<int>)
    requires Counts(keyvals, objs, freed)
    ensures KeysLeft(keyvals, keyvals, freed, objs) && freed == freed * keyvals.Keys
  {
    hide Users;
    forall key | key in keyvals && key in freed ensures Users(objs, key) != {} {
      assert RefsOk(keyvals, objs, freed, key);
    }
  }

  /** Removing one more attribute. */
  lemma LeftAfter(before: Keyvals, mid: Keyvals, freed: set<int>, objs: Objects, o: nat, key: int)
    requires KeysLeft(before, mid, freed, objs) && Counts(mid, objs, freed * mid.Keys)
    requires o in objs && key in mid && key in objs[o] && mid[key].refs > 0
    ensures KeysLeft(before, Less(mid, key), freed, objs[o := objs[o] - {key}])
    ensures Less(mid, key).Keys <= mid.Keys
  {
    hide Users;
    var after, objs2 := Less(mid, key), objs[o := objs[o] - {key}];
    assert RefsOk(mid, objs, freed * mid.Keys, key);
    InUsers(objs, o, key);
    UsersRemove(objs, o, key, key);
    assert |Users(objs2, key)| == |Users(objs, key)| - 1;
    assert |Users(objs2, key)| == 0 <==> Users(objs2, key) == {};
    forall k ensures k in after <==> k in before && (k !in freed || Users(objs2, k) != {}) {
      UsersRemove(objs, o, key, k);
    }
    forall k | k in after ensures SameKey(before, after, k) { assert SameKey(before, mid, k); }
  }

  /** Numbers after a key has lost a reference. */
  lemma NumberedLess(bitmap: set<int>, keyvals: Keyvals, key: int)
    requires Numbered(bitmap, keyvals) && key in keyvals && keyvals[key].refs > 0
    ensures Numbered(bitmap - (keyvals.Keys - Less(keyvals, key).Keys), Less(keyvals, key))
    ensures keyvals.Keys - Less(keyvals, key).Keys == if key in Less(keyvals, key) then {} else {key}
  {
  }

  // ---------- The subsystem ----------

  class AttributeSystem {
    var keyvals: Keyvals
    var bitmap: set<int>         // key numbers taken
    var sequence: nat
    var kinds: map<nat, Kind>    // the live objects
    var objects: Objects
    var calls: seq<Call>         // delete callbacks so far
    var answers: seq<Answer>     // what the copy callbacks have answered so far
    ghost var freed: set<int>    // keys freed while still in use

    ghost predicate Valid()
      reads this
    {
      && Numbered(bitmap, keyvals) && Counts(keyvals, objects, freed) && Cached(keyvals, kinds, objects, sequence)
      && forall o | o in objects :: Timed(objects[o])
    }

    constructor ()
      ensures Valid() && objects == map[] && calls == [] && answers == [] && keyvals == map[] && kinds == map[]
      ensures sequence == 0 && bitmap == FirstKeys(PREDEFINED_KEYS)
    {
      keyvals, sequence, kinds, objects, calls, answers, freed := map[], 0, map[], map[], [], [], {};
      bitmap := FirstKeys(PREDEFINED_KEYS);
    }

    method NewObject(o: nat, kind: Kind)
      requires Valid() && o !in objects
      modifies this`kinds, this`objects
      ensures Valid() && objects == old(objects)[o := map[]] && kinds == old(kinds)[o := kind]
    {
      CountsObject(keyvals, objects, freed, o);
      CachedObject(keyvals, kinds, objects, sequence, o, kind);
      kinds := kinds[o := kind];
      objects := objects[o := map[]];
    }

    /** `ompi_attr_create_keyval_impl` for an ordinary key: the first free number.  No object uses that number,
        nor is it the number of another key. */
    method CreateKeyval(kind: Kind) returns (ret: Result, key: int)
      requires Valid()
      modifies this`keyvals, this`bitmap
      ensures Valid() && (ret == Success || (ret == OutOfResource && keyvals == old(keyvals) && bitmap == old(bitmap)))
      ensures 0 <= key && key !in old(bitmap) && (forall x | 0 <= x < key :: x in old(bitmap))
      ensures ret == Success <==> key < MAX_KEYS
      ensures ret == Success ==> key !in old(keyvals) && keyvals == old(keyvals)[key := Keyval(kind, false, 1)]
      ensures ret == Success ==> bitmap == old(bitmap) + {key}
      ensures ret == Success ==> forall o | o in objects :: key !in objects[o]
    {
      key := 0;
      while key in bitmap
        invariant 0 <= key && forall x | 0 <= x < key :: x in bitmap
        decreases set x | x in bitmap && key <= x
      {
        ghost var left := set x | x in bitmap && key <= x;
        assert key in left;
        key := key + 1;
      }
      if key >= MAX_KEYS { return OutOfResource, key; }
      hide Counts, Cached, Timed;
      Unused(keyvals, kinds, objects, sequence, key);
      CountsNew(keyvals, objects, freed, key, Keyval(kind, false, 1));
      CachedMore(keyvals, kinds, objects, sequence, key, Keyval(kind, false, 1));
      bitmap := bitmap + {key};
      keyvals := keyvals[key := Keyval(kind, false, 1)];
      ret := Success;
    }

    /** A predefined key has a fixed number. */
    method CreatePredefined(kind: Kind, key: int)
      requires Valid() && 0 <= key < PREDEFINED_KEYS && key in bitmap && key !in keyvals
      modifies this`keyvals
      ensures Valid() && keyvals == old(keyvals)[key := Keyval(kind, true, 1)]
    {
      hide Counts, Cached, Timed;
      Unused(keyvals, kinds, objects, sequence, key);
      CountsNew(keyvals, objects, freed, key, Keyval(kind, true, 1));
      CachedMore(keyvals, kinds, objects, sequence, key, Keyval(kind, true, 1));
      keyvals := keyvals[key := Keyval(kind, true, 1)];
    }

    /** `OBJ_RELEASE` on a key: the last reference removes it and gives its number back. */
    method Release(key: int)
      requires key in keyvals && keyvals[key].refs > 0
      modifies this`keyvals, this`bitmap
      ensures keyvals == Less(old(keyvals), key)
      ensures bitmap == old(bitmap) - (old(keyvals).Keys - keyvals.Keys)
    {
      var k := keyvals[key];
      if k.refs == 1 {
        keyvals := keyvals - {key};
        bitmap := bitmap - {key};
      } else {
        keyvals := keyvals[key := k.(refs := k.refs - 1)];
      }
    }

    predicate Usable(kind: Kind, key: int, predefined: bool)
      reads this
    {
      key in keyvals && keyvals[key].kind == kind && (predefined || !keyvals[key].predefined)
    }

    /** `ompi_attr_free_keyval`: the key stays as long as an object uses it.  Each key is freed at most once. */
    method FreeKeyval(kind: Kind, key: int, predefined: bool) returns (ret: Result)
      requires Valid() && key !in freed
      modifies this`keyvals, this`bitmap, this`freed
      ensures Valid() && (ret == Success <==> old(Usable(kind, key, predefined))) && (ret == Success || ret == BadParam)
      ensures ret == BadParam ==> keyvals == old(keyvals) && bitmap == old(bitmap) && freed == old(freed)
      ensures ret == Success ==>
          (key in keyvals <==> Users(objects, key) != {}) && keyvals == Less(old(keyvals), key)
      ensures ret == Success ==>
          bitmap == old(bitmap) - (old(keyvals).Keys - keyvals.Keys) && freed == (old(freed) + {key}) * keyvals.Keys
    {
      if !Usable(kind, key, predefined) { return BadParam; }
      hide Counts, Cached, Timed, Users;
      CountsFree(keyvals, objects, freed, key);
      NumberedLess(bitmap, keyvals, key);
      CachedLess(keyvals, kinds, objects, objects, sequence, key);
      Release(key);
      freed := (freed + {key}) * keyvals.Keys;
      ret := Success;
    }

    /** A user's delete callback, which may fail. */
    method Callback(o: nat, key: int) returns (ok: bool)
      modifies this`calls
      ensures calls == old(calls) + [Call(o, key, ok)]
    {
      ok := *;
      calls := calls + [Call(o, key, ok)];
    }

    /** `set_value`: an old value is deleted first, and its deletion may refuse the new one; the new value gets the
        next sequence number, and the key one reference more if the object did not use it. */
    method Set(o: nat, key: int, value: int, predefined: bool) returns (ret: Result)
      requires Valid() && o in objects && o in kinds
      modifies this`keyvals, this`objects, this`sequence, this`calls
      ensures Valid() && keyvals.Keys == old(keyvals).Keys && ret != OutOfResource
      ensures ret == BadParam <==> !old(Usable(kinds[o], key, predefined))
      ensures ret == CallbackFailed ==> key in old(objects[o])
      ensures ret != Success ==> keyvals == old(keyvals) && objects == old(objects) && sequence == old(sequence)
      ensures ret == Success ==>
          sequence == old(sequence) + 1
              && objects == old(objects)[o := old(objects[o])[key := Attr(value, old(sequence))]]
      ensures ret == Success ==> keyvals == if key in old(objects[o]) then old(keyvals) else More(old(keyvals), key)
      ensures calls == if ret != BadParam && key in old(objects[o]) then old(calls) + [Call(o, key, ret == Success)]
          else old(calls)
    {
      if !Usable(kinds[o], key, predefined) { return BadParam; }
      hide Counts, Cached, Timed;
      var hadOld := false;
      if key in objects[o] {
        var ok := Callback(o, key);
        if !ok { return CallbackFailed; }
        hadOld := true;
      }
      var a := Attr(value, sequence);
      CountsAdd(keyvals, objects, freed, o, key, a);
      CachedSet(keyvals, kinds, objects, sequence, o, key, value);
      objects := objects[o := objects[o][key := a]];
      sequence := sequence + 1;
      if !hadOld { keyvals := keyvals[key := keyvals[key].(refs := keyvals[key].refs + 1)]; }
      ret := Success;
    }

    /** `ompi_attr_delete_impl`: the callback decides; on success the attribute is gone and the key loses the
        object's reference, disappearing if it was freed and this was the last. */
    method Delete(o: nat, key: int, predefined: bool) returns (ret: Result)
      requires Valid() && o in objects && o in kinds
      modifies this`keyvals, this`bitmap, this`objects, this`calls, this`freed
      ensures Valid() && ret != OutOfResource
      ensures ret == BadParam <==> !(old(Usable(kinds[o], key, predefined)) && key in old(objects[o]))
      ensures ret != Success ==>
          keyvals == old(keyvals) && objects == old(objects) && bitmap == old(bitmap) && freed == old(freed)
      ensures ret == Success ==>
          objects == old(objects)[o := old(objects[o]) - {key}] && keyvals == Less(old(keyvals), key)
      ensures ret == Success ==>
          bitmap == old(bitmap) - (old(keyvals).Keys - keyvals.Keys) && freed == old(freed) * keyvals.Keys
      ensures calls == if ret == BadParam then old(calls) else old(calls) + [Call(o, key, ret == Success)]
    {
      if !Usable(kinds[o], key, predefined) { return BadParam; }
      if key !in objects[o] { return BadParam; }
      hide Counts, Cached, Timed;
      var ok := Callback(o, key);
      if !ok { return CallbackFailed; }
      CountsRemove(keyvals, objects, freed, o, key);
      NumberedLess(bitmap, keyvals, key);
      TimedLess(objects[o], key);
      CachedLess(keyvals, kinds, objects, objects[o := objects[o] - {key}], sequence, key);
      objects := objects[o := objects[o] - {key}];
      Release(key);
      freed := freed * keyvals.Keys;
      ret := Success;
    }
  
    /** `ompi_attr_delete_all`: callbacks run strictly in reverse order of setting.  On success nothing is left; when
        a callback fails, exactly its attribute and those set earlier are left. */
    method DeleteAll(o: nat) returns (ret: Result, ghost order: seq<int>, ghost stop: nat)
      requires Valid() && o in objects && o in kinds
      modifies this`keyvals, this`bitmap, this`objects, this`calls, this`freed
      ensures Valid() && InOrder(old(objects[o]), order) && (ret == Success || ret == CallbackFailed)
      ensures ret == Success ==> stop == 0 && objects == old(objects)[o := map[]]
      ensures ret != Success ==> stop < |order| && objects == old(objects)[o := Kept(old(objects[o]), order, stop + 1)]
      ensures ret == Success ==> calls == old(calls) + Reversed(o, order, 0)
      ensures ret != Success ==> calls == old(calls) + Reversed(o, order, stop + 1) + [Call(o, order[stop], false)]
      ensures KeysLeft(old(keyvals), keyvals, old(freed), objects) && freed == old(freed) * keyvals.Keys
      ensures bitmap == old(bitmap) - (old(keyvals).Keys - keyvals.Keys)
    {
      hide Counts, Cached, Timed, Kept, InOrder, Less, Reversed, Users, KeysLeft, Numbered;
      AllLeft(keyvals, objects, freed);
      var keys := KeysInOrder(objects[o]);
      order, stop := keys, |keys|;
      ret := Success;
      KeptAll(objects[o], keys);
      NothingReversed(o, keys);
      assert objects[o := objects[o]] == objects;
      var i := |keys| - 1;
      while i >= 0
        invariant -1 <= i < |keys| && stop == i + 1 && Valid() && o in objects && o in kinds && ret == Success
        invariant objects == old(objects)[o := Kept(old(objects[o]), keys, i + 1)]
        invariant calls == old(calls) + Reversed(o, keys, i + 1)
        invariant KeysLeft(old(keyvals), keyvals, old(freed), objects) && freed == old(freed) * keyvals.Keys
        invariant keyvals.Keys <= old(keyvals).Keys && bitmap == old(bitmap) - (old(keyvals).Keys - keyvals.Keys)
      {
        KeptLast(old(objects[o]), keys, i);
        UnderKey(keyvals, kinds, objects, sequence, o, keys[i]);
        ghost var before := objects;
        RefsPositive(keyvals, objects, freed, keys[i]);
        LeftAfter(old(keyvals), keyvals, old(freed), objects, o, keys[i]);
        ret := Delete(o, keys[i], true);
        assert ret == Success ==> objects == before[o := Kept(old(objects[o]), keys, i)];
        ReversedMore(o, keys, i);
        stop := i;
        if ret != Success { break; }
        i := i - 1;
      }
      KeptNone(old(objects[o]), keys);
    }

    /** A user's copy callback: it may fail, and it says whether to copy and which value. */
    method CopyCallback(key: int) returns (a: Answer)
      modifies this`answers
      ensures answers == old(answers) + [a] && a.key == key
    {
      var ok: bool, flag: bool, value: int := *, *, *;
      a := Answer(key, ok, flag, value);
      answers := answers + [a];
    }

    /** `ompi_attr_copy_all`: the copy callback of each attribute of from is asked once, in the order of the hash table,
        which is any order.  What it agrees to is set on to, with the value it gives and the next sequence number.  The
        copying stops at the first callback that fails, or the first value that the deletion of an old one refuses. */
    method CopyAll(from: nat, to: nat) returns (ret: Result, ghost asked: seq<Answer>, ghost done: nat)
      requires Valid() && from in objects && to in objects && from in kinds && to in kinds && from != to
          && kinds[from] == kinds[to]
      modifies this`keyvals, this`objects, this`sequence, this`calls, this`answers
      ensures Valid() && (ret == Success || ret == CallbackFailed)
      ensures answers == old(answers) + asked && OncePerKey(asked, old(objects[from]).Keys)
      ensures done <= |asked| && forall i | 0 <= i < done :: asked[i].ok
      ensures ret == Success ==> done == |asked| && forall key | key in old(objects[from]) :: Asked(asked, key)
      ensures ret != Success ==> done + 1 == |asked| && Refused(asked[done], old(objects[to]))
      ensures calls == old(calls) + Replaced(to, old(objects[to]), asked[..done])
          + if ret != Success && asked[done].ok then [Call(to, asked[done].key, false)] else []
      ensures SameKeys(old(keyvals), keyvals)
      ensures objects == old(objects)[to := Applied(old(objects[to]), asked[..done], old(sequence))]
      ensures sequence == old(sequence) + Agreed(asked[..done])
    {
      hide Counts, Cached, Timed, OncePerKey, Asked, Applied, Agreed, Refused, Replaced, Numbered;
      asked, done, ret := [], 0, Success;
      var left := objects[from].Keys;
      NothingAsked(left, objects[to], sequence);
      assert objects[to := objects[to]] == objects;
      while left != {}
        invariant Valid() && ret == Success && done == |asked| && answers == old(answers) + asked
            && left <= old(objects[from]).Keys
        invariant OncePerKey(asked, old(objects[from]).Keys) && forall i | 0 <= i < done :: asked[i].ok
        invariant forall key | key in old(objects[from]) :: key in left <==> !Asked(asked, key)
        invariant objects == old(objects)[to := Applied(old(objects[to]), asked, old(sequence))]
        invariant sequence == old(sequence) + Agreed(asked) && SameKeys(old(keyvals), keyvals)
        invariant calls == old(calls) + Replaced(to, old(objects[to]), asked)
        decreases left
      {
        QueueSpec.SomeMember(left);
        var key :| key in left;
        UnderKey(keyvals, kinds, objects, sequence, from, key);
        var a := CopyCallback(key);
        ghost var before := asked;
        AskMore(before, a, old(objects[from]).Keys, old(objects[to]), old(sequence));
        ReplacedMore(to, old(objects[to]), before, a);
        asked := asked + [a];
        assert asked[..done] == before;
        if !a.ok { return CallbackFailed, asked, done; }
        if a.flag {
          ret := Set(to, key, a.value, true);
          if ret != Success { return; }
        }
        done := done + 1;
        left := left - {key};
      }
      assert asked[..done] == asked;
    }
  }

  /** Every callback was asked about a key of the object, and about none twice. */
  ghost predicate OncePerKey(asked: seq<Answer>, keys: set<int>)
  {
    && (forall i | 0 <= i < |asked| :: asked[i].key in keys)
    && forall i, j | 0 <= i < j < |asked| :: asked[i].key != asked[j].key
  }

  ghost predicate Asked(asked: seq<Answer>, key: int)
  {
    exists i :: 0 <= i < |asked| && asked[i].key == key
  }

  /** The callback failed, or agreed to replace a value whose deletion may fail. */
  ghost predicate Refused(a: Answer, attrs: map<int, Attr>)
  {
    !a.ok || (a.flag && a.key in attrs)
  }

  /** How many callbacks agreed to copy. */
  function Agreed(asked: seq<Answer>): nat
  {
    if asked == [] then 0 else Agreed(asked[..|asked| - 1]) + if asked[|asked| - 1].flag then 1 else 0
  }

  /** The attributes after the copying that the callbacks agreed to. */
  function Applied(attrs: map<int, Attr>, asked: seq<Answer>, now: nat): map<int, Attr>
  {
    if asked == [] then attrs else
      var rest, a := asked[..|asked| - 1], asked[|asked| - 1];
      if a.flag then Applied(attrs, rest, now)[a.key := Attr(a.value, now + Agreed(rest))]
          else Applied(attrs, rest, now)
  }

  /** The delete callbacks, all successful, for the values that were replaced. */
  function Replaced(to: nat, attrs: map<int, Attr>, asked: seq<Answer>): seq<Call>
  {
    if asked == [] then [] else
      var rest, a := asked[..|asked| - 1], asked[|asked| - 1];
      if a.flag && a.key in attrs then Replaced(to, attrs, rest) + [Call(to, a.key, true)]
          else Replaced(to, attrs, rest)
  }

  lemma ReplacedMore(to: nat, attrs: map<int, Attr>, asked: seq<Answer>, a: Answer)
    ensures Replaced(to, attrs, asked + [a])
         == if a.flag && a.key in attrs then Replaced(to, attrs, asked) + [Call(to, a.key, true)]
            else Replaced(to, attrs, asked)
  {
    assert (asked + [a])[..|asked|] == asked;
  }

  lemma NothingAsked(keys: set<int>, attrs: map<int, Attr>, now: nat)
    ensures OncePerKey([], keys) && Applied(attrs, [], now) == attrs && Agreed([]) == 0 && forall key :: !Asked([], key)
    ensures forall to :: Replaced(to, attrs, []) == []
  {
  }

  lemma AskMore(asked: seq<Answer>, a: Answer, keys: set<int>, attrs: map<int, Attr>, now: nat)
    requires OncePerKey(asked, keys) && a.key in keys && !Asked(asked, a.key)
    ensures OncePerKey(asked + [a], keys)
    ensures forall key :: Asked(asked + [a], key) <==> Asked(asked, key) || key == a.key
    ensures Agreed(asked + [a]) == Agreed(asked) + if a.flag then 1 else 0
    ensures Applied(attrs, asked + [a], now)
         == if a.flag then Applied(attrs, asked, now)[a.key := Attr(a.value, now + Agreed(asked))]
             else Applied(attrs, asked, now)
    ensures a.key in Applied(attrs, asked, now) <==> a.key in attrs
    ensures Refused(a, attrs) <==> !a.ok || (a.flag && a.key in Applied(attrs, asked, now))
  {
    var more := asked + [a];
    assert more[..|asked|] == asked;
    forall key ensures Asked(more, key) <==> Asked(asked, key) || key == a.key {
      if Asked(asked, key) {
        var i :| 0 <= i < |asked| && asked[i].key == key;
        assert more[i].key == key;
      }
      assert more[|asked|].key == a.key;
    }
    AppliedKeys(attrs, asked, now, a.key);
  }

  /** The keys after copying: the old ones and those some callback agreed to. */
  lemma {:induction false} AppliedKeys(attrs: map<int, Attr>, asked: seq<Answer>, now: nat, key: int)
    ensures key in Applied(attrs, asked, now) <==>
        key in attrs || exists i :: 0 <= i < |asked| && asked[i].key == key && asked[i].flag
    ensures !Asked(asked, key) ==> (key in Applied(attrs, asked, now) <==> key in attrs)
    ensures !Asked(asked, key) && key in attrs ==> Applied(attrs, asked, now)[key] == attrs[key]
  {
    if asked != [] {
      var last := |asked| - 1;
      AppliedKeys(attrs, asked[..last], now, key);
      if i :| 0 <= i < last && asked[..last][i].key == key { assert asked[i].key == key; }
      assert forall i | 0 <= i < last :: asked[i] == asked[..last][i];
    }
  }

  /** An attribute that a callback agreed to has the value it gave and a sequence number of this copying. */
  lemma {:induction false} AppliedValue(attrs: map<int, Attr>, asked: seq<Answer>, now: nat, keys: set<int>, i: nat)
    requires OncePerKey(asked, keys) && i < |asked| && asked[i].flag
    ensures asked[i].key in Applied(attrs, asked, now)
    ensures Applied(attrs, asked, now)[asked[i].key] == Attr(asked[i].value, now + Agreed(asked[..i]))
  {
    var last := |asked| - 1;
    var rest := asked[..last];
    if i < last {
      assert forall j | 0 <= j < last :: asked[j] == rest[j];
      AppliedValue(attrs, rest, now, keys, i);
      assert rest[..i] == asked[..i] && asked[last].key != asked[i].key;
    }
  }

  /** The keys of the attributes in the order they were set. */
  ghost predicate InOrder(attrs: map<int, Attr>, keys: seq<int>)
  {
    && (forall k :: k in keys <==> k in attrs)
    && forall a, b | 0 <= a < b < |keys| :: keys[a] in attrs && keys[b] in attrs && Later(attrs, keys[b], keys[a])
  }

  method InsertKey(attrs: map<int, Attr>, keys: seq<int>, key: int) returns (res: seq<int>)
    requires Timed(attrs) && key in attrs && key !in keys && (forall a | 0 <= a < |keys| :: keys[a] in attrs)
    requires forall a, b | 0 <= a < b < |keys| :: Later(attrs, keys[b], keys[a])
    ensures (forall k :: k in res <==> k in keys || k == key) && forall a | 0 <= a < |res| :: res[a] in attrs
    ensures forall a, b | 0 <= a < b < |res| :: Later(attrs, res[b], res[a])
  {
    var i := |keys|;
    while i > 0 && Later(attrs, keys[i - 1], key)
      invariant 0 <= i <= |keys| && forall a | i <= a < |keys| :: Later(attrs, keys[a], key)
    {
      i := i - 1;
    }
    res := keys[..i] + [key] + keys[i..];
    forall a | 0 <= a < i ensures Later(attrs, key, keys[a]) {
      assert keys[i - 1] in keys;
      EarlierOrLater(attrs, key, keys[i - 1]);
      assert a < i - 1 ==> Later(attrs, keys[i - 1], keys[a]);
    }
    Inserted(attrs, keys, key, i, res);
  }

  lemma EarlierOrLater(attrs: map<int, Attr>, k1: int, k2: int)
    requires Timed(attrs) && k1 in attrs && k2 in attrs
    ensures k1 != k2 ==> Later(attrs, k1, k2) || Later(attrs, k2, k1)
  {
  }

  lemma Inserted(attrs: map<int, Attr>, keys: seq<int>, key: int, i: nat, res: seq<int>)
    requires i <= |keys| && res == keys[..i] + [key] + keys[i..] && key in attrs
        && forall a | 0 <= a < |keys| :: keys[a] in attrs
    requires forall a, b | 0 <= a < b < |keys| :: Later(attrs, keys[b], keys[a])
    requires (forall a | 0 <= a < i :: Later(attrs, key, keys[a]))
        && forall a | i <= a < |keys| :: Later(attrs, keys[a], key)
    ensures (forall k :: k in res <==> k in keys || k == key) && forall a | 0 <= a < |res| :: res[a] in attrs
    ensures forall a, b | 0 <= a < b < |res| :: Later(attrs, res[b], res[a])
  {
    hide Later;
    assert keys == keys[..i] + keys[i..];
    assert forall a | 0 <= a < |res| :: res[a] == if a < i then keys[a] else if a == i then key else keys[a - 1];
  }

  /** The attributes of an object, collected from its table and sorted by sequence number. */
  method KeysInOrder(attrs: map<int, Attr>) returns (keys: seq<int>)
    requires Timed(attrs)
    ensures InOrder(attrs, keys)
  {
    keys := [];
    var left := attrs.Keys;
    while left != {}
      invariant left <= attrs.Keys && (forall k :: k in keys <==> k in attrs && k !in left)
      invariant (forall a | 0 <= a < |keys| :: keys[a] in attrs)
      invariant forall a, b | 0 <= a < b < |keys| :: Later(attrs, keys[b], keys[a])
      decreases left
    {
      QueueSpec.SomeMember(left);
      var key :| key in left;
      keys := InsertKey(attrs, keys, key);
      left := left - {key};
    }
  }

  lemma RefsPositive(keyvals: Keyvals, objs: Objects, freed: set<int>, key: int)
    requires Counts(keyvals, objs, freed) && key in keyvals
    ensures keyvals[key].refs > 0 && freed <= keyvals.Keys
  {
    assert RefsOk(keyvals, objs, freed, key);
  }

  /** The attributes set first. */
  ghost function Kept(attrs: map<int, Attr>, keys: seq<int>, n: nat): map<int, Attr>
    requires n <= |keys|
  {
    map k | k in attrs && k in keys[..n] :: attrs[k]
  }

  /** Delete callbacks, all successful, for the last attributes down to position lo. */
  ghost function Reversed(o: nat, keys: seq<int>, lo: nat): seq<Call>
    requires lo <= |keys|
    decreases |keys| - lo
  {
    if lo == |keys| then [] else Reversed(o, keys, lo + 1) + [Call(o, keys[lo], true)]
  }

  lemma NothingReversed(o: nat, keys: seq<int>)
    ensures Reversed(o, keys, |keys|) == []
  {
  }

  lemma ReversedMore(o: nat, keys: seq<int>, i: nat)
    requires i < |keys|
    ensures Reversed(o, keys, i) == Reversed(o, keys, i + 1) + [Call(o, keys[i], true)]
  {
  }

  lemma KeptAll(attrs: map<int, Attr>, keys: seq<int>)
    requires InOrder(attrs, keys)
    ensures Kept(attrs, keys, |keys|) == attrs
  {
    var all := keys[..|keys|];
    assert all == keys;
    forall k ensures k in Kept(attrs, keys, |keys|) <==> k in attrs { assert k in keys <==> k in attrs; }
  }

  lemma KeptNone(attrs: map<int, Attr>, keys: seq<int>)
    ensures Kept(attrs, keys, 0) == map[]
  {
  }

  lemma NotItself(attrs: map<int, Attr>, k1: int, k2: int)
    requires k1 in attrs && k2 in attrs && Later(attrs, k1, k2)
    ensures k1 != k2
  {
  }

  lemma KeptLast(attrs: map<int, Attr>, keys: seq<int>, i: nat)
    requires InOrder(attrs, keys) && i < |keys|
    ensures keys[i] in Kept(attrs, keys, i + 1) && Kept(attrs, keys, i) == Kept(attrs, keys, i + 1) - {keys[i]}
  {
    hide Later;
    assert keys[i] in keys;
    assert keys[..i + 1] == keys[..i] + [keys[i]];
    forall a | 0 <= a < i ensures keys[a] != keys[i] { NotItself(attrs, keys[i], keys[a]); }
  }

  lemma UnderKey(keyvals: Keyvals, kinds: map<nat, Kind>, objs: Objects, now: nat, o: nat, key: int)
    requires Cached(keyvals, kinds, objs, now) && o in objs && key in objs[o]
    ensures key in keyvals && o in kinds && keyvals[key].kind == kinds[o]
  {
    assert AttrOk(keyvals, kinds, objs, now, o, key);
  }

  lemma Unused(keyvals: Keyvals, kinds: map<nat, Kind>, objs: Objects, now: nat, key: int)
    requires Cached(keyvals, kinds, objs, now) && key !in keyvals
    ensures forall o | o in objs :: key !in objs[o]
  {
    forall o | o in objs
      ensures key !in objs[o]
    {
      assert forall k | k in objs[o] :: AttrOk(keyvals, kinds, objs, now, o, k);
    }
  }

  lemma CachedObject(keyvals: Keyvals, kinds: map<nat, Kind>, objs: Objects, now: nat, o: nat, kind: Kind)
    requires Cached(keyvals, kinds, objs, now) && o !in objs
    ensures Cached(keyvals, kinds[o := kind], objs[o := map[]], now) && Timed(map[])
  {
    var objs2 := objs[o := map[]];
    forall x, k | x in objs2 && k in objs2[x] ensures AttrOk(keyvals, kinds[o := kind], objs2, now, x, k) {
      assert AttrOk(keyvals, kinds, objs, now, x, k);
    }
  }

  lemma CachedMore(keyvals: Keyvals, kinds: map<nat, Kind>, objs: Objects, now: nat, key: int, kv: Keyval)
    requires Cached(keyvals, kinds, objs, now) && key !in keyvals
    ensures Cached(keyvals[key := kv], kinds, objs, now)
  {
    forall x, k | x in objs && k in objs[x] ensures AttrOk(keyvals[key := kv], kinds, objs, now, x, k) {
      assert AttrOk(keyvals, kinds, objs, now, x, k);
    }
  }

  /** A key may go once no attribute is left under it. */
  lemma CachedLess(keyvals: Keyvals, kinds: map<nat, Kind>, objs: Objects, rest: Objects, now: nat, key: int)
    requires Cached(keyvals, kinds, objs, now) && key in keyvals && keyvals[key].refs > 0 && rest.Keys == objs.Keys
    requires forall o, k | o in rest && k in rest[o] :: k in objs[o] && rest[o][k] == objs[o][k]
    requires key !in Less(keyvals, key) ==> forall o | o in rest :: key !in rest[o]
    ensures Cached(Less(keyvals, key), kinds, rest, now)
  {
    var after := Less(keyvals, key);
    forall x, k | x in rest && k in rest[x] ensures AttrOk(after, kinds, rest, now, x, k) {
      assert AttrOk(keyvals, kinds, objs, now, x, k);
    }
  }

  lemma TimedLess(attrs: map<int, Attr>, key: int)
    requires Timed(attrs)
    ensures Timed(attrs - {key})
  {
    var rest := attrs - {key};
    forall k1, k2 | k1 in rest && k2 in rest && k1 != k2 ensures Later(rest, k1, k2) || Later(rest, k2, k1) {
      assert Later(attrs, k1, k2) || Later(attrs, k2, k1);
    }
  }

  lemma CachedSet(keyvals: Keyvals, kinds: map<nat, Kind>, objs: Objects, now: nat, o: nat, key: int, value: int)
    requires Cached(keyvals, kinds, objs, now) && o in objs && o in kinds && key in keyvals
        && keyvals[key].kind == kinds[o]
    requires Timed(objs[o])
    ensures Cached(if key in objs[o] then keyvals
        else More(keyvals, key), kinds, objs[o := objs[o][key := Attr(value, now)]], now + 1)
    ensures Timed(objs[o][key := Attr(value, now)])
  {
    var after := if key in objs[o] then keyvals else More(keyvals, key);
    var attrs := objs[o][key := Attr(value, now)];
    var objs2 := objs[o := attrs];
    forall x, k | x in objs2 && k in objs2[x] ensures AttrOk(after, kinds, objs2, now + 1, x, k) {
      if x != o || k != key { assert AttrOk(keyvals, kinds, objs, now, x, k); }
    }
    forall k1, k2 | k1 in attrs && k2 in attrs && k1 != k2 ensures Later(attrs, k1, k2) || Later(attrs, k2, k1) {
      if k1 != key { assert AttrOk(keyvals, kinds, objs, now, o, k1); }
      if k2 != key { assert AttrOk(keyvals, kinds, objs, now, o, k2); }
      assert k1 != key && k2 != key ==> Later(objs[o], k1, k2) || Later(objs[o], k2, k1);
    }
  }

  function FirstKeys(n: nat): (s: set<int>)
    ensures forall k :: k in s <==> 0 <= k < n
  {
    if n == 0 then {} else FirstKeys(n - 1) + {n - 1}
  }
}
