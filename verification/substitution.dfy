/**
 A character-for-character substitution driven by a finite table: every
 character that is a key of the table is replaced by the key's value, every
 other character is kept. This is the shape of `''.join(mapping.get(ch, ch)
 for ch in text)`; the laws below hold for any table and are instantiated for
 the concrete tables in module TextTransform.
 */
module Substitution {

  type Table = map<char, char>

  /** One lookup with the character itself as the default. */
  function Lookup(table: Table, c: char): char
  {
    if c in table then table[c] else c
  }

  /** The substitution, applied left to right one character at a time. */
  function Substitute(table: Table, s: string): string
  {
    if s == [] then [] else [Lookup(table, s[0])] + Substitute(table, s[1..])
  }

  /** Reference definition: position i of the result is the lookup of position i. */
  function Pointwise(table: Table, s: string): string
  {
    seq(|s|, i requires 0 <= i < |s| => Lookup(table, s[i]))
  }

  /** No value of the table is itself a key, so a replaced character is never replaced again. */
  ghost predicate ValuesAreNotKeys(table: Table)
  {
    forall k :: k in table ==> table[k] !in table
  }

  /** Distinct keys have distinct values. */
  ghost predicate InjectiveOnKeys(table: Table)
  {
    forall j, k :: j in table && k in table && table[j] == table[k] ==> j == k
  }

  /** No character of s is a key of the table. */
  ghost predicate KeyFree(table: Table, s: string)
  {
    forall i :: 0 <= i < |s| ==> s[i] !in table
  }

  /** inv sends every value of table back to its key. */
  ghost predicate Inverts(table: Table, inv: Table)
  {
    forall k :: k in table ==> table[k] in inv && inv[table[k]] == k
  }

  /** The recursive substitution agrees with the position-by-position definition. */
  lemma {:induction false} SubstituteIsPointwise(table: Table, s: string)
    ensures Substitute(table, s) == Pointwise(table, s)
    ensures |Substitute(table, s)| == |s|
    ensures forall i :: 0 <= i < |s| ==> Substitute(table, s)[i] == Lookup(table, s[i])
  {
    if s != [] {
      SubstituteIsPointwise(table, s[1..]);
      var r := Substitute(table, s);
      assert |r| == |s|;
      forall i | 0 <= i < |s|
        ensures r[i] == Lookup(table, s[i])
      {
        if i > 0 {
          assert r[i] == Substitute(table, s[1..])[i - 1];
        }
      }
    }
  }

  /** The substitution of the empty string is empty, and it distributes over concatenation. */
  lemma {:induction false} SubstituteConcat(table: Table, s: string, t: string)
    ensures Substitute(table, []) == []
    ensures Substitute(table, s + t) == Substitute(table, s) + Substitute(table, t)
  {
    if s == [] {
      assert s + t == t;
    } else {
      assert (s + t)[1..] == s[1..] + t;
      SubstituteConcat(table, s[1..], t);
    }
  }

  /** When no value is a key, the result contains no key at all. */
  lemma {:induction false} SubstituteIsKeyFree(table: Table, s: string)
    requires ValuesAreNotKeys(table)
    ensures KeyFree(table, Substitute(table, s))
  {
    if s != [] {
      SubstituteIsKeyFree(table, s[1..]);
      var r := Substitute(table, s);
      forall i | 0 <= i < |r|
        ensures r[i] !in table
      {
        if i > 0 {
          assert r[i] == Substitute(table, s[1..])[i - 1];
        }
      }
    }
  }

  /** A string with no key in it is left unchanged. */
  lemma {:induction false} SubstituteFixesKeyFree(table: Table, s: string)
    requires KeyFree(table, s)
    ensures Substitute(table, s) == s
  {
    if s != [] {
      SubstituteFixesKeyFree(table, s[1..]);
    }
  }

  /** When no value is a key, substituting twice is the same as substituting once. */
  lemma SubstituteIdempotent(table: Table, s: string)
    requires ValuesAreNotKeys(table)
    ensures Substitute(table, Substitute(table, s)) == Substitute(table, s)
  {
    SubstituteIsKeyFree(table, s);
    SubstituteFixesKeyFree(table, Substitute(table, s));
  }

  /**
   Substituting with an inverse table undoes the substitution, provided the
   input holds none of the characters the inverse would rewrite.
   */
  lemma {:induction false} SubstituteRoundTrip(table: Table, inv: Table, s: string)
    requires Inverts(table, inv)
    requires KeyFree(inv, s)
    ensures Substitute(inv, Substitute(table, s)) == s
  {
    if s != [] {
      SubstituteRoundTrip(table, inv, s[1..]);
    }
  }
}
