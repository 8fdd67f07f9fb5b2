/** Python's dynamically typed values, as far as the three registries inspect them:
    the `isinstance` tests of the portfolio validation and the `in`, iteration and
    `append`/`remove` operations that the early member centre applies to user
    dictionaries whose entries callers may overwrite with anything. */
module Python {

  datatype Option<+T> = None | Some(value: T)

  /** A Python value, tagged by its runtime type. A dict is kept as its entries in
      insertion order; Python guarantees that its keys are distinct. */
  datatype Value =
    | NoneValue
    | Bool(b: bool)
    | Int(i: int)
    | Float(f: real)
    | Str(s: string)
    | List(items: seq<Value>)
    | Dict(entries: seq<(string, Value)>)

  /** `isinstance(v, (int, float))`; `bool` is a subclass of `int` in Python. */
  predicate IsNumber(v: Value) {
    v.Bool? || v.Int? || v.Float?
  }

  /** `key in d` for a dict `d`: a scan of the entries. */
  predicate HasKey(entries: seq<(string, Value)>, key: string)
    decreases |entries|
  {
    entries != [] && (entries[0].0 == key || HasKey(entries[1..], key))
  }

  /** `d[key]`: the value stored under `key`. */
  function Get(entries: seq<(string, Value)>, key: string): Value
    requires HasKey(entries, key)
    decreases |entries|
  {
    if entries[0].0 == key then entries[0].1 else Get(entries[1..], key)
  }

  /** `key in d and d[key] == v`. */
  predicate HasEntry(entries: seq<(string, Value)>, key: string, v: Value) {
    HasKey(entries, key) && Get(entries, key) == v
  }

  /** `key in d` holds exactly when some entry carries that key. */
  lemma {:induction false} HasKeyIff(entries: seq<(string, Value)>, key: string)
    ensures HasKey(entries, key) <==> exists i :: 0 <= i < |entries| && entries[i].0 == key
    decreases |entries|
  {
    if entries != [] {
      var tail := entries[1..];
      HasKeyIff(tail, key);
      assert forall i :: 1 <= i < |entries| ==> entries[i] == tail[i - 1];
      if exists i :: 0 <= i < |entries| && entries[i].0 == key {
        var i :| 0 <= i < |entries| && entries[i].0 == key;
        if i > 0 {
          assert tail[i - 1].0 == key;
        }
      }
    }
  }

  /** `d[key]` is the value of an entry that carries `key`. */
  lemma {:induction false} GetFound(entries: seq<(string, Value)>, key: string)
    requires HasKey(entries, key)
    ensures exists i :: 0 <= i < |entries| && entries[i] == (key, Get(entries, key))
    decreases |entries|
  {
    if entries[0].0 != key {
      var tail := entries[1..];
      GetFound(tail, key);
      var i :| 0 <= i < |tail| && tail[i] == (key, Get(tail, key));
      assert entries[i + 1] == tail[i];
    }
  }

  /** `d[k]` of the first entry carrying `k` is that entry's value. */
  lemma {:induction false} GetAt(entries: seq<(string, Value)>, i: nat)
    requires i < |entries|
    requires forall j :: 0 <= j < i ==> entries[j].0 != entries[i].0
    ensures HasEntry(entries, entries[i].0, entries[i].1)
    decreases i
  {
    if i > 0 {
      var tail := entries[1..];
      assert tail[i - 1] == entries[i];
      forall j | 0 <= j < i - 1 ensures tail[j].0 != tail[i - 1].0 {
        assert tail[j] == entries[j + 1];
      }
      GetAt(tail, i - 1);
    }
  }

  /** A list of strs as Python values. */
  function Strs(s: seq<string>): (r: seq<Value>)
    ensures |r| == |s| && forall i :: 0 <= i < |s| ==> r[i] == Str(s[i])
  {
    seq(|s|, i requires 0 <= i < |s| => Str(s[i]))
  }

  lemma StrsMembers(s: seq<string>, x: string)
    ensures Str(x) in Strs(s) <==> x in s
  {
    if x in s {
      var i :| 0 <= i < |s| && s[i] == x;
      assert Strs(s)[i] == Str(x);
    }
  }

  /** True iff `needle` occurs in `hay` as a contiguous piece (Python's `in` on strings). */
  predicate IsSubstring(needle: string, hay: string) {
    exists i :: 0 <= i <= |hay| - |needle| && OccursAt(needle, hay, i)
  }

  predicate OccursAt(needle: string, hay: string, i: int)
    requires 0 <= i <= |hay| - |needle|
  {
    hay[i..i + |needle|] == needle
  }

  /** `x in container` for a string `x`: membership in a list, substring of a str,
      key of a dict; any other container raises TypeError, which is `None` here. */
  function Contains(container: Value, x: string): (r: Option<bool>)
    ensures r.None? <==> !(container.List? || container.Str? || container.Dict?)
    ensures container.List? ==> r == Some(Str(x) in container.items)
  {
    match container
    case List(items) => Some(Str(x) in items)
    case Str(s) => Some(IsSubstring(x, s))
    case Dict(entries) => Some(HasKey(entries, x))
    case _ => None
  }

  /** The values a `for` loop visits: list items, the one-character strings of a str,
      the keys of a dict; any other value raises TypeError, which is `None` here. */
  function Iterate(v: Value): (r: Option<seq<Value>>)
    ensures r.Some? <==> (v.List? || v.Str? || v.Dict?)
    ensures v.List? ==> r == Some(v.items)
    ensures v.Str? ==> (r.Some? && |r.value| == |v.s| &&
      forall i :: 0 <= i < |v.s| ==> r.value[i] == Str([v.s[i]]))
    ensures v.Dict? ==> (r.Some? && |r.value| == |v.entries| &&
      forall i :: 0 <= i < |v.entries| ==> r.value[i] == Str(v.entries[i].0))
  {
    match v
    case List(items) => Some(items)
    case Str(s) => Some(seq(|s|, i requires 0 <= i < |s| => Str([s[i]])))
    case Dict(entries) => Some(seq(|entries|, i requires 0 <= i < |entries| => Str(entries[i].0)))
    case _ => None
  }

  /** `x in d` for a dict `d` with string keys and an arbitrary `x`: a str is looked up,
      a list or dict is unhashable and raises TypeError (`None`), any other value is
      never a key. */
  function IsKeyOf(x: Value, keys: set<string>): (r: Option<bool>)
    ensures r.None? <==> (x.List? || x.Dict?)
    ensures r == Some(true) <==> (x.Str? && x.s in keys)
  {
    match x
    case Str(s) => Some(s in keys)
    case List(_) => None
    case Dict(_) => None
    case _ => Some(false)
  }
}
