/**
 * A name-keyed, insertion-ordered route collection: the PHP array / Laravel
 * collection keyed by route name that the pipeline passes around.
 */
module Registry {
  import opened PhpSupport
  import Glob

  datatype Entry<V> = Entry(name: string, value: V)

  /** No two entries share a name (keys of a PHP array are unique). */
  ghost predicate DistinctNames<V>(reg: seq<Entry<V>>) {
    forall i, j :: 0 <= i < j < |reg| ==> reg[i].name != reg[j].name
  }

  /** Position of the entry called `name`, if any (the first one, which is the only one when names are distinct). */
  function IndexOf<V>(reg: seq<Entry<V>>, name: string): (r: Option<nat>)
    ensures r.Some? ==> r.value < |reg| && reg[r.value].name == name
    ensures r.Some? ==> forall j :: 0 <= j < r.value ==> reg[j].name != name
    ensures r.None? ==> forall j :: 0 <= j < |reg| ==> reg[j].name != name
  {
    if reg == [] then None
    else if reg[0].name == name then Some(0)
    else
      match IndexOf(reg[1..], name)
      case Some(k) => Some(k + 1)
      case None => None
  }

  /** `$reg[$name] ?? null`. */
  function Lookup<V>(reg: seq<Entry<V>>, name: string): Option<V> {
    match IndexOf(reg, name)
    case Some(k) => Some(reg[k].value)
    case None => None
  }

  /** Two registries whose names agree position by position find a name at the same position. */
  lemma SameNamesSameIndex<V>(a: seq<Entry<V>>, b: seq<Entry<V>>, name: string)
    requires |a| == |b| && forall k :: 0 <= k < |a| ==> a[k].name == b[k].name
    ensures IndexOf(a, name) == IndexOf(b, name)
  {
  }

  /** In a registry with distinct names, each entry is what lookup of its name finds. */
  lemma LookupEntry<V>(reg: seq<Entry<V>>, k: nat)
    requires DistinctNames(reg) && k < |reg|
    ensures Lookup(reg, reg[k].name) == Some(reg[k].value)
  {
  }

  /**
   * `$reg[$name] = $v`: an existing key keeps its position and takes the new
   * value; a new key is appended at the end.
   */
  function Put<V>(reg: seq<Entry<V>>, name: string, v: V): (r: seq<Entry<V>>)
    ensures |r| == if IndexOf(reg, name).Some? then |reg| else |reg| + 1
    ensures forall k :: 0 <= k < |reg| ==> r[k].name == reg[k].name
    ensures forall k :: 0 <= k < |reg| && reg[k].name != name ==> r[k] == reg[k]
    ensures IndexOf(reg, name).Some? ==> r[IndexOf(reg, name).value] == Entry(name, v)
    ensures IndexOf(reg, name).None? ==> r[|reg|] == Entry(name, v)
    ensures forall k :: 0 <= k < |r| ==> r[k] == Entry(name, v) || r[k] in reg
  {
    match IndexOf(reg, name)
    case Some(k) => reg[k := Entry(name, v)]
    case None => reg + [Entry(name, v)]
  }

  /** After `Put`, the name finds the new value and every other name finds what it found before. */
  lemma PutLookup<V>(reg: seq<Entry<V>>, name: string, v: V, m: string)
    ensures Lookup(Put(reg, name, v), m) == if m == name then Some(v) else Lookup(reg, m)
  {
    var r := Put(reg, name, v);
    match IndexOf(reg, name)
    case Some(k) =>
      SameNamesSameIndex(r, reg, m);
    case None =>
      if m != name {
        SameNamesSameIndex(r[..|reg|], reg, m);
        var i := IndexOf(r, m);
        if i.Some? && i.value < |reg| {
          assert r[..|reg|][i.value].name == m;
        }
      }
  }

  /** `Put` keeps names distinct. */
  lemma PutDistinct<V>(reg: seq<Entry<V>>, name: string, v: V)
    requires DistinctNames(reg)
    ensures DistinctNames(Put(reg, name, v))
  {
  }

  /** `a` is `b` with some entries left out and the rest in their original order. */
  ghost predicate SubsequenceOf<T>(a: seq<T>, b: seq<T>)
    decreases |b|
  {
    if a == [] then true
    else if b == [] then false
    else (a[0] == b[0] && SubsequenceOf(a[1..], b[1..])) || SubsequenceOf(a, b[1..])
  }

  /**
   * `$routes->filter(fn ($route, $name) => Str::is($patterns, $name) ? $include : !$include)`:
   * an entry survives exactly when whether its name matches equals `keepMatches` (the source's `$include`).
   */
  function Filtered<V>(reg: seq<Entry<V>>, patterns: seq<string>, keepMatches: bool): (r: seq<Entry<V>>)
    ensures |r| <= |reg|
    ensures forall k :: 0 <= k < |r| ==> r[k] in reg && Glob.AnyMatches(patterns, r[k].name) == keepMatches
    ensures forall k :: 0 <= k < |reg| && Glob.AnyMatches(patterns, reg[k].name) == keepMatches ==> reg[k] in r
  {
    if reg == [] then []
    else
      var keep := if Glob.AnyMatches(patterns, reg[0].name) then keepMatches else !keepMatches;
      (if keep then [reg[0]] else []) + Filtered(reg[1..], patterns, keepMatches)
  }

  /** Filtering keeps the survivors' values and their relative order. */
  lemma {:induction false} FilteredKeepsOrder<V>(reg: seq<Entry<V>>, patterns: seq<string>, keepMatches: bool)
    ensures SubsequenceOf(Filtered(reg, patterns, keepMatches), reg)
  {
    if reg != [] {
      FilteredKeepsOrder(reg[1..], patterns, keepMatches);
      var rest := Filtered(reg[1..], patterns, keepMatches);
      var r := Filtered(reg, patterns, keepMatches);
      if Glob.AnyMatches(patterns, reg[0].name) == keepMatches {
        assert r == [reg[0]] + rest;
        assert r[0] == reg[0] && r[1..] == rest;
      } else {
        assert r == rest;
        SkipHead(r, reg);
      }
    }
  }

  lemma SkipHead<T>(a: seq<T>, b: seq<T>)
    requires b != [] && SubsequenceOf(a, b[1..])
    ensures SubsequenceOf(a, b)
  {
  }

  /** Filtering never introduces a duplicate name. */
  lemma {:induction false} FilteredDistinct<V>(reg: seq<Entry<V>>, patterns: seq<string>, keepMatches: bool)
    requires DistinctNames(reg)
    ensures DistinctNames(Filtered(reg, patterns, keepMatches))
  {
    if reg != [] {
      FilteredDistinct(reg[1..], patterns, keepMatches);
      var rest := Filtered(reg[1..], patterns, keepMatches);
      forall i | 0 <= i < |rest| ensures rest[i].name != reg[0].name {
        var k :| 0 <= k < |reg[1..]| && reg[1..][k] == rest[i];
        assert reg[k + 1] == rest[i];
      }
    }
  }

  /** Filtering a filtered registry again with the same patterns and flag changes nothing. */
  lemma {:induction false} FilteredIdempotent<V>(reg: seq<Entry<V>>, patterns: seq<string>, keepMatches: bool)
    ensures Filtered(Filtered(reg, patterns, keepMatches), patterns, keepMatches) == Filtered(reg, patterns, keepMatches)
  {
    if reg != [] {
      FilteredIdempotent(reg[1..], patterns, keepMatches);
      var rest := Filtered(reg[1..], patterns, keepMatches);
      if Glob.AnyMatches(patterns, reg[0].name) == keepMatches {
        var r := [reg[0]] + rest;
        assert Filtered(reg, patterns, keepMatches) == r;
        assert r[0] == reg[0] && r[1..] == rest;
        calc {
          Filtered(r, patterns, keepMatches);
          [r[0]] + Filtered(r[1..], patterns, keepMatches);
          [reg[0]] + Filtered(rest, patterns, keepMatches);
          r;
        }
      } else {
        assert Filtered(reg, patterns, keepMatches) == rest;
      }
    }
  }

  /** Keeping the matches and keeping the rest split the registry: every entry lands on exactly one side. */
  lemma {:induction false} FilteredPartition<V>(reg: seq<Entry<V>>, patterns: seq<string>)
    ensures |Filtered(reg, patterns, true)| + |Filtered(reg, patterns, false)| == |reg|
    ensures multiset(Filtered(reg, patterns, true)) + multiset(Filtered(reg, patterns, false)) == multiset(reg)
  {
    if reg != [] {
      FilteredPartition(reg[1..], patterns);
      var yes, no := Filtered(reg[1..], patterns, true), Filtered(reg[1..], patterns, false);
      assert reg == [reg[0]] + reg[1..];
      if Glob.AnyMatches(patterns, reg[0].name) {
        assert Filtered(reg, patterns, true) == [reg[0]] + yes;
        assert Filtered(reg, patterns, false) == no;
      } else {
        assert Filtered(reg, patterns, true) == yes;
        assert Filtered(reg, patterns, false) == [reg[0]] + no;
      }
    }
  }
}
