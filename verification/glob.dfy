/** `Str::is`: whole-name, case-sensitive matching where `*` stands for any run of characters. */
module Glob {

  /** True when `pattern` matches all of `name`; `*` matches any (possibly empty) run of characters. */
  predicate Matches(pattern: string, name: string)
    decreases |pattern| + |name|
  {
    if pattern == [] then name == []
    else if pattern[0] == '*' then
      Matches(pattern[1..], name) || (name != [] && Matches(pattern, name[1..]))
    else
      name != [] && pattern[0] == name[0] && Matches(pattern[1..], name[1..])
  }

  /** `Str::is($patterns, $name)` on a list of patterns: true when some pattern matches. */
  predicate AnyMatches(patterns: seq<string>, name: string) {
    exists i :: 0 <= i < |patterns| && Matches(patterns[i], name)
  }

  predicate StarFree(pattern: string) {
    forall k :: 0 <= k < |pattern| ==> pattern[k] != '*'
  }

  /** Without a `*`, a pattern matches exactly the identical name. */
  lemma {:induction false} LiteralMatches(pattern: string, name: string)
    requires StarFree(pattern)
    ensures Matches(pattern, name) <==> pattern == name
  {
    if pattern != [] && name != [] {
      assert StarFree(pattern[1..]) by {
        forall k | 0 <= k < |pattern[1..]| ensures pattern[1..][k] != '*' {
          assert pattern[1..][k] == pattern[k + 1];
        }
      }
      LiteralMatches(pattern[1..], name[1..]);
      if pattern[0] == name[0] && pattern[1..] == name[1..] {
        assert pattern == [pattern[0]] + pattern[1..] && name == [name[0]] + name[1..];
      }
    }
  }

  /** Every name matches itself read as a pattern (the `$pattern === $value` shortcut of `Str::is`). */
  lemma {:induction false} MatchesItself(name: string)
    ensures Matches(name, name)
  {
    if name != [] {
      MatchesItself(name[1..]);
      if name[0] == '*' {
        assert Matches(name, name[1..]) by {
          assert Matches(name[1..], name[1..]);
        }
      }
    }
  }

  /** A lone `*` matches every name. */
  lemma {:induction false} StarMatchesAll(name: string)
    ensures Matches("*", name)
  {
    if name != [] {
      StarMatchesAll(name[1..]);
    }
  }

  /** Matching is compositional: matches of two halves give a match of the concatenations. */
  lemma {:induction false} MatchesConcat(p1: string, p2: string, s1: string, s2: string)
    requires Matches(p1, s1) && Matches(p2, s2)
    ensures Matches(p1 + p2, s1 + s2)
    decreases |p1| + |s1|
  {
    if p1 == [] {
      assert p1 + p2 == p2 && s1 + s2 == s2;
    } else if p1[0] == '*' {
      assert (p1 + p2)[0] == '*' && (p1 + p2)[1..] == p1[1..] + p2;
      if Matches(p1[1..], s1) {
        MatchesConcat(p1[1..], p2, s1, s2);
      } else {
        MatchesConcat(p1, p2, s1[1..], s2);
        assert (s1 + s2)[1..] == s1[1..] + s2;
      }
    } else {
      assert (p1 + p2)[1..] == p1[1..] + p2 && (s1 + s2)[1..] == s1[1..] + s2;
      MatchesConcat(p1[1..], p2, s1[1..], s2);
    }
  }

  /** `prefix*` with a star-free prefix matches exactly the names that start with that prefix. */
  lemma PrefixStarMatches(prefix: string, name: string)
    requires StarFree(prefix)
    ensures Matches(prefix + "*", name) <==> prefix <= name
  {
    if prefix <= name {
      MatchesItself(prefix);
      StarMatchesAll(name[|prefix|..]);
      MatchesConcat(prefix, "*", prefix, name[|prefix|..]);
      assert prefix + name[|prefix|..] == name;
    }
    if Matches(prefix + "*", name) {
      PrefixStarOnlyPrefixes(prefix, name);
    }
  }

  /** A name matching `prefix*` (star-free prefix) starts with the prefix. */
  lemma {:induction false} PrefixStarOnlyPrefixes(prefix: string, name: string)
    requires StarFree(prefix) && Matches(prefix + "*", name)
    ensures prefix <= name
  {
    if prefix != [] {
      assert (prefix + "*")[0] == prefix[0] && (prefix + "*")[1..] == prefix[1..] + "*";
      assert StarFree(prefix[1..]) by {
        forall k | 0 <= k < |prefix[1..]| ensures prefix[1..][k] != '*' {
          assert prefix[1..][k] == prefix[k + 1];
        }
      }
      PrefixStarOnlyPrefixes(prefix[1..], name[1..]);
      assert prefix == [prefix[0]] + prefix[1..] && name == [name[0]] + name[1..];
    }
  }

  /** Matching a concatenated pattern list is matching either list. */
  lemma AnyMatchesAppend(a: seq<string>, b: seq<string>, name: string)
    ensures AnyMatches(a + b, name) <==> AnyMatches(a, name) || AnyMatches(b, name)
  {
    if AnyMatches(a + b, name) {
      var i :| 0 <= i < |a + b| && Matches((a + b)[i], name);
      if i >= |a| {
        assert (a + b)[i] == b[i - |a|];
      }
    }
    if AnyMatches(b, name) {
      var i :| 0 <= i < |b| && Matches(b[i], name);
      assert (a + b)[|a| + i] == b[i];
    }
    if AnyMatches(a, name) {
      var i :| 0 <= i < |a| && Matches(a[i], name);
      assert (a + b)[i] == a[i];
    }
  }
}
