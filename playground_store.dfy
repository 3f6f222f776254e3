/**
 * The store of all playgrounds: a dictionary from a playground (compared by
 * its id) to its display name, a listing sorted by name, and the conversion
 * to and from the `[String: String]` property list that is persisted.
 */
module PlaygroundStore {
  import opened Wrappers
  import opened Uuid

  /** Swift's `String <` on names, as lexicographic order on characters. */
  predicate NameLess(a: string, b: string)
    ensures NameLess(a, b) ==> a != b
    ensures a < b ==> NameLess(a, b)
    decreases |a|
  {
    if |a| == 0 then |b| > 0
    else if |b| == 0 then false
    else if a[0] < b[0] then true
    else if a[0] == b[0] then NameLess(a[1..], b[1..])
    else false
  }

  lemma {:induction false} NameLessTransitive(a: string, b: string, c: string)
    requires NameLess(a, b) && NameLess(b, c)
    ensures NameLess(a, c)
    decreases |a|
  {
    if |a| > 0 && a[0] == b[0] && b[0] == c[0] {
      NameLessTransitive(a[1..], b[1..], c[1..]);
    }
  }

  lemma {:induction false} NameLessTotal(a: string, b: string)
    requires a != b
    ensures NameLess(a, b) || NameLess(b, a)
    decreases |a|
  {
    if |a| > 0 && |b| > 0 && a[0] == b[0] {
      assert a == [a[0]] + a[1..] && b == [b[0]] + b[1..];
      NameLessTotal(a[1..], b[1..]);
    }
  }

  lemma {:induction false} NameLessAsymmetric(a: string, b: string)
    requires NameLess(a, b)
    ensures !NameLess(b, a)
    decreases |a|
  {
    if |a| > 0 && a[0] == b[0] {
      NameLessAsymmetric(a[1..], b[1..]);
    }
  }

  /** "Not less" is transitive: the listing's order is a total preorder. */
  lemma NotLessTransitive(a: string, b: string, c: string)
    requires !NameLess(b, a) && !NameLess(c, b)
    ensures !NameLess(c, a)
  {
    if a != b && b != c {
      NameLessTotal(a, b);
      NameLessTotal(b, c);
      NameLessTransitive(a, b, c);
      NameLessAsymmetric(a, c);
    }
  }

  /** No later playground's name is less than an earlier one's. */
  ghost predicate SortedByName(r: seq<Id>, names: map<Id, string>)
    requires forall i :: 0 <= i < |r| ==> r[i] in names
  {
    forall i, j :: 0 <= i < j < |r| ==> !NameLess(names[r[j]], names[r[i]])
  }

  /** Puts `k` before the first playground whose name is not less than `k`'s. */
  function Insert(k: Id, s: seq<Id>, names: map<Id, string>): (r: seq<Id>)
    requires k in names
    requires forall i :: 0 <= i < |s| ==> s[i] in names
    ensures |r| == |s| + 1
    ensures forall x :: x in r <==> x == k || x in s
    ensures forall i :: 0 <= i < |r| ==> r[i] in names
  {
    if s == [] then [k]
    else if !NameLess(names[s[0]], names[k]) then [k] + s
    else [s[0]] + Insert(k, s[1..], names)
  }

  lemma {:induction false} InsertSorted(k: Id, s: seq<Id>, names: map<Id, string>)
    requires k in names
    requires forall i :: 0 <= i < |s| ==> s[i] in names
    requires SortedByName(s, names)
    ensures SortedByName(Insert(k, s, names), names)
  {
    if s == [] {
    } else if !NameLess(names[s[0]], names[k]) {
      var r := [k] + s;
      forall i, j | 0 <= i < j < |r|
        ensures !NameLess(names[r[j]], names[r[i]])
      {
        if i == 0 {
          if j > 1 {
            NotLessTransitive(names[k], names[s[0]], names[s[j - 1]]);
          }
        }
      }
    } else {
      var tail := Insert(k, s[1..], names);
      InsertSorted(k, s[1..], names);
      var r := [s[0]] + tail;
      forall i, j | 0 <= i < j < |r|
        ensures !NameLess(names[r[j]], names[r[i]])
      {
        if i == 0 {
          var x := r[j];
          assert x in tail;
          if x == k {
            if NameLess(names[k], names[s[0]]) {
              NameLessTransitive(names[k], names[s[0]], names[k]);
            }
          } else {
            assert x in s[1..];
            var m :| 0 <= m < |s[1..]| && s[1..][m] == x;
            assert s[m + 1] == x;
          }
        } else {
          assert r[i] == tail[i - 1] && r[j] == tail[j - 1];
        }
      }
    }
  }

  /** No playground appears twice in `s`. */
  ghost predicate Distinct(s: seq<Id>)
  {
    forall i, j :: 0 <= i < j < |s| ==> s[i] != s[j]
  }

  /** `r` lists every playground of `keys` exactly once, in non-decreasing order of name. */
  ghost predicate ListsByName(r: seq<Id>, keys: set<Id>, names: map<Id, string>)
  {
    && |r| == |keys|
    && (forall x :: x in r <==> x in keys)
    && Distinct(r)
    && (forall i :: 0 <= i < |r| ==> r[i] in names)
    && SortedByName(r, names)
  }

  /** Inserting one more playground into a listing of the others lists them all. */
  lemma ListsByNameInsert(k: Id, keys: set<Id>, rest: seq<Id>, names: map<Id, string>)
    requires k in keys && keys <= names.Keys
    requires ListsByName(rest, keys - {k}, names)
    ensures ListsByName(Insert(k, rest, names), keys, names)
  {
    InsertSorted(k, rest, names);
    InsertDistinct(k, rest, names);
    assert |keys - {k}| == |keys| - 1;
  }

  /** Every playground of `keys` exactly once, in non-decreasing order of name. */
  ghost function SortByName(keys: set<Id>, names: map<Id, string>): (r: seq<Id>)
    requires keys <= names.Keys
    ensures ListsByName(r, keys, names)
    decreases keys
  {
    if keys == {} then []
    else
      var k :| k in keys;
      var rest := SortByName(keys - {k}, names);
      ListsByNameInsert(k, keys, rest, names);
      Insert(k, rest, names)
  }

  lemma {:induction false} InsertDistinct(k: Id, s: seq<Id>, names: map<Id, string>)
    requires k in names && k !in s
    requires forall i :: 0 <= i < |s| ==> s[i] in names
    requires Distinct(s)
    ensures Distinct(Insert(k, s, names))
  {
    if s != [] && NameLess(names[s[0]], names[k]) {
      InsertDistinct(k, s[1..], names);
      var tail := Insert(k, s[1..], names);
      assert s[0] !in s[1..];
      assert s[0] !in tail;
      var r := [s[0]] + tail;
      forall i, j | 0 <= i < j < |r|
        ensures r[i] != r[j]
      {
        if i == 0 {
          assert r[0] == s[0] && r[j] == tail[j - 1];
          assert r[j] in tail;
        } else {
          assert r[i] == tail[i - 1] && r[j] == tail[j - 1];
          assert tail[i - 1] != tail[j - 1];
        }
      }
      assert Insert(k, s, names) == r;
    }
  }

  /** `asPropertyList`: each playground's id text mapped to its name. */
  method AsPropertyList(names: map<Id, string>) returns (plist: map<string, string>)
    ensures forall id :: id in names ==> id.uuidString in plist && plist[id.uuidString] == names[id]
    ensures forall s :: s in plist ==> Canonical(s) && Id(s) in names
    ensures |plist| == |names|
  {
    plist := map[];
    var rest := names.Keys;
    while rest != {}
      invariant rest <= names.Keys
      invariant forall id :: id in names && id !in rest ==> id.uuidString in plist && plist[id.uuidString] == names[id]
      invariant forall s :: s in plist ==> Canonical(s) && Id(s) in names && Id(s) !in rest
      invariant |plist| == |names.Keys| - |rest|
      decreases rest
    {
      var key :| key in rest;
      assert key.uuidString !in plist;
      plist := plist[key.uuidString := names[key]];
      rest := rest - {key};
    }
  }

  /** The playground that a property-list key denotes: the parsed UUID, or a fresh one if it does not parse. */
  function IdFor(key: string, newIds: map<string, Id>): (r: Id)
    requires WellFormed(key) || key in newIds
    ensures WellFormed(key) ==> Parse(key) == Some(r) && r.uuidString == Upper(key)
    ensures Canonical(key) ==> r.uuidString == key
    ensures !WellFormed(key) ==> r == newIds[key]
  {
    if WellFormed(key) then
      assert Canonical(key) ==> Upper(key) == key by {
        if Canonical(key) {
          CanonicalUpper(key);
        }
      }
      Parse(key).value
    else newIds[key]
  }

  /**
   * `newIds` supplies the new random UUIDs made for keys that do not parse:
   * one per such key, all distinct, and none equal to a parsed key's UUID.
   */
  ghost predicate FreshSupply(table: map<string, string>, newIds: map<string, Id>) {
    (forall k :: k in table && !WellFormed(k) ==> k in newIds) &&
    (forall k, k' :: k in table && k' in table && !WellFormed(k) && !WellFormed(k') && k != k' ==>
       newIds[k] != newIds[k']) &&
    (forall k, k' :: k in table && k' in table && !WellFormed(k) && WellFormed(k') ==>
       newIds[k] != Parse(k').value)
  }

  /** No two keys of the table denote the same playground. */
  ghost predicate DistinctIds(table: map<string, string>, newIds: map<string, Id>)
    requires forall k :: k in table ==> WellFormed(k) || k in newIds
  {
    forall k, k' :: k in table && k' in table && k != k' ==> IdFor(k, newIds) != IdFor(k', newIds)
  }

  /** The table that `plist as? [String: String] ?? [:]` yields. */
  function TableOf(plist: Option<map<string, string>>): (r: map<string, string>)
    ensures plist.None? ==> r == map[]
    ensures plist.Some? ==> r == plist.value
  {
    if plist.Some? then plist.value else map[]
  }

  /** Every key outside `rest` has its playground in `names`. */
  ghost predicate KeysLoaded(table: map<string, string>, newIds: map<string, Id>, rest: set<string>,
                             names: map<Id, string>)
    requires forall k :: k in table ==> WellFormed(k) || k in newIds
  {
    forall k :: k in table && k !in rest ==> IdFor(k, newIds) in names
  }

  /** Every entry of `names` carries the name of a key outside `rest` that denotes it. */
  ghost predicate EntriesFromKeys(table: map<string, string>, newIds: map<string, Id>, rest: set<string>,
                                  names: map<Id, string>)
    requires forall k :: k in table ==> WellFormed(k) || k in newIds
  {
    forall id :: id in names ==>
      exists k :: k in table && k !in rest && IdFor(k, newIds) == id && names[id] == table[k]
  }

  /** With distinct UUIDs, one entry per key outside `rest`, carrying its name. */
  ghost predicate ExactSoFar(table: map<string, string>, newIds: map<string, Id>, rest: set<string>,
                             names: map<Id, string>)
    requires forall k :: k in table ==> WellFormed(k) || k in newIds
  {
    DistinctIds(table, newIds) ==>
      |names| == |table.Keys| - |rest| &&
      forall k :: k in table && k !in rest ==> IdFor(k, newIds) in names && names[IdFor(k, newIds)] == table[k]
  }

  /** What the loop of `init(fromPropertyList:)` has built once the keys outside `rest` are done. */
  ghost predicate LoadedSoFar(table: map<string, string>, newIds: map<string, Id>, rest: set<string>,
                              names: map<Id, string>)
    requires forall k :: k in table ==> WellFormed(k) || k in newIds
  {
    && rest <= table.Keys
    && KeysLoaded(table, newIds, rest, names)
    && EntriesFromKeys(table, newIds, rest, names)
    && |names| <= |table.Keys| - |rest|
    && ExactSoFar(table, newIds, rest, names)
  }

  lemma EntriesFromKeysStep(table: map<string, string>, newIds: map<string, Id>, rest: set<string>,
                            names: map<Id, string>, key: string)
    requires forall k :: k in table ==> WellFormed(k) || k in newIds
    requires EntriesFromKeys(table, newIds, rest, names)
    requires key in rest && key in table
    ensures EntriesFromKeys(table, newIds, rest - {key}, names[IdFor(key, newIds) := table[key]])
  {
    var id := IdFor(key, newIds);
    var after := names[id := table[key]];
    forall other | other in after
      ensures exists k :: k in table && k !in rest - {key} && IdFor(k, newIds) == other && after[other] == table[k]
    {
      if other == id {
        assert IdFor(key, newIds) == other && after[other] == table[key];
      } else {
        var k :| k in table && k !in rest && IdFor(k, newIds) == other && names[other] == table[k];
        assert k !in rest - {key};
      }
    }
  }

  lemma ExactSoFarStep(table: map<string, string>, newIds: map<string, Id>, rest: set<string>,
                       names: map<Id, string>, key: string)
    requires forall k :: k in table ==> WellFormed(k) || k in newIds
    requires rest <= table.Keys
    requires EntriesFromKeys(table, newIds, rest, names)
    requires ExactSoFar(table, newIds, rest, names)
    requires key in rest
    ensures ExactSoFar(table, newIds, rest - {key}, names[IdFor(key, newIds) := table[key]])
  {
    if DistinctIds(table, newIds) {
      assert IdFor(key, newIds) !in names;
      assert |rest - {key}| == |rest| - 1;
    }
  }

  /** One iteration: storing the name of `key` extends what has been loaded by that key. */
  lemma LoadStep(table: map<string, string>, newIds: map<string, Id>, rest: set<string>,
                 names: map<Id, string>, key: string)
    requires forall k :: k in table ==> WellFormed(k) || k in newIds
    requires LoadedSoFar(table, newIds, rest, names)
    requires key in rest
    ensures LoadedSoFar(table, newIds, rest - {key}, names[IdFor(key, newIds) := table[key]])
  {
    EntriesFromKeysStep(table, newIds, rest, names, key);
    ExactSoFarStep(table, newIds, rest, names, key);
    assert |rest - {key}| == |rest| - 1;
  }

  /**
   * `init(fromPropertyList:)`: one entry per key of the table, carrying that
   * key's name. When two keys denote the same UUID (they differ only in the
   * case of their letters), one of the names wins; which one depends on the
   * dictionary's iteration order.
   */
  method FromPropertyList(plist: Option<map<string, string>>, newIds: map<string, Id>)
    returns (names: map<Id, string>)
    requires FreshSupply(TableOf(plist), newIds)
    ensures plist.None? ==> names == map[]
    ensures forall k :: k in TableOf(plist) ==> IdFor(k, newIds) in names
    ensures forall id :: id in names ==>
      exists k :: k in TableOf(plist) && IdFor(k, newIds) == id && names[id] == TableOf(plist)[k]
    ensures |names| <= |TableOf(plist)|
    ensures DistinctIds(TableOf(plist), newIds) ==>
      |names| == |TableOf(plist)| &&
      forall k :: k in TableOf(plist) ==> names[IdFor(k, newIds)] == TableOf(plist)[k]
  {
    var table := TableOf(plist);
    names := map[];
    var rest := table.Keys;
    while rest != {}
      invariant LoadedSoFar(table, newIds, rest, names)
      decreases rest
    {
      var key :| key in rest;
      LoadStep(table, newIds, rest, names, key);
      names := names[IdFor(key, newIds) := table[key]];
      rest := rest - {key};
    }
    assert |table.Keys| == |table|;
  }

  /** Saving the store as a property list and loading it back gives the same store. */
  method PropertyListRoundTrip(names: map<Id, string>) returns (loaded: map<Id, string>)
    ensures loaded == names
  {
    var plist := AsPropertyList(names);
    loaded := FromPropertyList(Some(plist), map[]);
    forall id | id in names
      ensures id in loaded && loaded[id] == names[id]
    {
      assert id.uuidString in plist;
      assert IdFor(id.uuidString, map[]) == id;
    }
  }

  class PlaygroundStore {
    const name: string
    var playgroundNames: map<Id, string>

    /**
     * `init(named:)`: the names come from the property list persisted under
     * the store's key (`stored`, which is nil when nothing was saved).
     */
    constructor (stored: Option<map<string, string>>, newIds: map<string, Id>, name: string := "Karel Playgrounds")
      requires FreshSupply(TableOf(stored), newIds)
      ensures this.name == name
      ensures stored.None? ==> playgroundNames == map[]
      ensures forall k :: k in TableOf(stored) ==> IdFor(k, newIds) in playgroundNames
      ensures forall id :: id in playgroundNames ==>
        exists k :: k in TableOf(stored) && IdFor(k, newIds) == id && playgroundNames[id] == TableOf(stored)[k]
      ensures |playgroundNames| <= |TableOf(stored)|
      ensures DistinctIds(TableOf(stored), newIds) ==>
        |playgroundNames| == |TableOf(stored)| &&
        forall k :: k in TableOf(stored) ==> playgroundNames[IdFor(k, newIds)] == TableOf(stored)[k]
    {
      this.name := name;
      var loaded := FromPropertyList(stored, newIds);
      playgroundNames := loaded;
    }

    /** `name(for:)`: the stored name when the playground is a key, nil otherwise. */
    function Name(playground: Id): (r: Option<string>)
      reads this
      ensures r.Some? <==> playground in playgroundNames
      ensures r.Some? ==> r.value == playgroundNames[playground]
    {
      if playground in playgroundNames then Some(playgroundNames[playground]) else None
    }

    method UpdatePlayground(playground: Id, name: string)
      modifies this
      ensures playgroundNames == old(playgroundNames)[playground := name]
      ensures Name(playground) == Some(name)
      ensures forall p :: p != playground ==> Name(p) == old(Name(p))
    {
      playgroundNames := playgroundNames[playground := name];
    }

    /** Adds a new playground, whose fresh UUID is `id`. */
    method AddPlayground(id: Id, name: string := "Untitled")
      requires id !in playgroundNames
      modifies this
      ensures playgroundNames == old(playgroundNames)[id := name]
      ensures playgroundNames.Keys == old(playgroundNames).Keys + {id}
      ensures |playgroundNames| == |old(playgroundNames)| + 1
      ensures Name(id) == Some(name)
      ensures forall p :: p != id ==> Name(p) == old(Name(p))
    {
      playgroundNames := playgroundNames[id := name];
    }

    method RemovePlayground(playground: Id)
      modifies this
      ensures playgroundNames == old(playgroundNames) - {playground}
      ensures Name(playground) == None
      ensures forall p :: p != playground ==> Name(p) == old(Name(p))
    {
      playgroundNames := playgroundNames - {playground};
    }

    method SetName(name: string, playground: Id)
      modifies this
      ensures playgroundNames == old(playgroundNames)[playground := name]
      ensures Name(playground) == Some(name)
      ensures forall p :: p != playground ==> Name(p) == old(Name(p))
    {
      playgroundNames := playgroundNames[playground := name];
    }

    /** `playgrounds`: every stored playground once, in non-decreasing order of name. */
    ghost function Playgrounds(): (r: seq<Id>)
      reads this
      ensures |r| == |playgroundNames|
      ensures forall p :: p in r <==> p in playgroundNames
      ensures forall i, j :: 0 <= i < j < |r| ==> r[i] != r[j]
      ensures forall i :: 0 <= i < |r| ==> r[i] in playgroundNames
      ensures forall i, j :: 0 <= i < j < |r| ==>
        !NameLess(playgroundNames[r[j]], playgroundNames[r[i]])
    {
      SortByName(playgroundNames.Keys, playgroundNames)
    }
  }
}
