/** What a domain list means: a set of exact names and a set of wildcard suffixes. */
module Lists {
  import opened Bytes

  datatype Sets = Sets(exact: set<Text>, wild: set<Text>)

  /** What inserting an already normalised name adds; names a record cannot hold add nothing. */
  datatype Entry = Nothing | ExactName(name: Text) | WildSuffix(name: Text)

  const NO_NAMES := Sets({}, {})

  function EntryOf(n: Text): Entry {
    if HasWildcardPrefix(n) then
      if Storable(n[2..]) then WildSuffix(n[2..]) else Nothing
    else
      if Storable(n) then ExactName(n) else Nothing
  }

  function Add(s: Sets, e: Entry): Sets {
    match e
    case Nothing => s
    case ExactName(n) => s.(exact := s.exact + {n})
    case WildSuffix(n) => s.(wild := s.wild + {n})
  }

  predicate Has(s: Sets, e: Entry) {
    match e
    case Nothing => true
    case ExactName(n) => n in s.exact
    case WildSuffix(n) => n in s.wild
  }

  /** Removing a normalised name: the wildcard it spells, and the exact name as well. */
  function Remove(s: Sets, n: Text): Sets {
    Sets(s.exact - {n}, if HasWildcardPrefix(n) then s.wild - {n[2..]} else s.wild)
  }

  function Union(s: Sets, t: Sets): Sets {
    Sets(s.exact + t.exact, s.wild + t.wild)
  }

  /** What every list built by inserts looks like. */
  ghost predicate WellFormed(s: Sets) {
    && (forall n :: n in s.exact ==> Storable(n) && !HasWildcardPrefix(n))
    && (forall n :: n in s.wild ==> Storable(n))
  }

  /** A name matches when it is listed, or ends with a dot followed by a listed wildcard suffix. */
  ghost predicate Matches(s: Sets, d: Text) {
    d in s.exact || exists w :: w in s.wild && EndsWith(d, [DOT] + w)
  }

  /** Adding an entry changes a list exactly when the entry is new. */
  lemma AddSameIff(s: Sets, e: Entry)
    ensures Add(s, e) == s <==> Has(s, e)
  {
    match e
    case Nothing =>
    case ExactName(n) => if n in s.exact { assert s.exact + {n} == s.exact; }
    case WildSuffix(n) => if n in s.wild { assert s.wild + {n} == s.wild; }
  }

  /** An entry spells its name: each comes from one normalised name only. */
  lemma EntryInverse(q: Text, n: Text)
    ensures EntryOf(q) == ExactName(n) <==> q == n && Storable(n) && !HasWildcardPrefix(n)
    ensures EntryOf(q) == WildSuffix(n) <==> q == [STAR, DOT] + n && Storable(n)
  {
  }

  /** In bytes: `*.` and 1 to 65535 bytes make a wildcard, any other 1 to 65535 bytes an exact name. */
  lemma EntryByBytes(q: Text)
    ensures EntryOf(q) ==
            if |q| >= 2 && q[0] == 42 && q[1] == 46 then
              if 3 <= |q| <= 65537 then WildSuffix(q[2..]) else Nothing
            else if 1 <= |q| <= 65535 then ExactName(q) else Nothing
  {
  }

  /** What an insert, a remove and a merge leave, name by name; nothing but the names given is affected. */
  lemma ListByName(s: Sets, t: Sets, e: Entry, n: Text, x: Text)
    ensures x in Add(s, e).exact <==> x in s.exact || e == ExactName(x)
    ensures x in Add(s, e).wild <==> x in s.wild || e == WildSuffix(x)
    ensures x in Remove(s, n).exact <==> x in s.exact && x != n
    ensures x in Remove(s, n).wild <==> x in s.wild && n != [42, 46] + x
    ensures x in Union(s, t).exact <==> x in s.exact || x in t.exact
    ensures x in Union(s, t).wild <==> x in s.wild || x in t.wild
  {
    if HasWildcardPrefix(n) {
      assert n == [42, 46] + n[2..];
    }
    assert ([42, 46] + x)[2..] == x;
  }

  /** Removing right after inserting undoes the insert exactly when the insert was new (or a no-op). */
  lemma RemoveUndoesAdd(s: Sets, n: Text)
    requires WellFormed(s)
    ensures Remove(Add(s, EntryOf(n)), n) == s <==> EntryOf(n) == Nothing || !Has(s, EntryOf(n))
  {
  }

  /** Scanning every entry and looking up every parent suffix are the same test. */
  lemma MatchesBySuffix(s: Sets, d: Text)
    ensures Matches(s, d) <==>
            d in s.exact || exists j :: 0 <= j < |d| && d[j] == DOT && d[j + 1..] in s.wild
  {
    forall w | w in s.wild && EndsWith(d, [DOT] + w) ensures d[|d| - |w| - 1] == DOT && d[|d| - |w|..] == w {
      var tail := d[|d| - |w| - 1..];
      assert tail[0] == DOT && tail[1..] == w;
      assert d[|d| - |w|..] == tail[1..];
    }
    forall j | 0 <= j < |d| && d[j] == DOT ensures EndsWith(d, [DOT] + d[j + 1..]) {
      assert d[j..] == [DOT] + d[j + 1..];
    }
  }

  /** A wildcard never matches its own bare suffix. */
  lemma WildcardSkipsBareName(w: Text)
    ensures !Matches(Sets({}, {w}), w)
  {
  }
}
