/** The search box: the case-insensitive substring test each record is put
    through (`filteredData`). */
module Search {
  import opened Seqs
  import opened Text
  import opened Users

  /** The text a record is searched by: name, email, location and
      occupation joined by single spaces. */
  function Haystack(u: User): string {
    u.name + " " + u.email + " " + u.location + " " + u.occupation
  }

  /** A record matches when the lower-cased query occurs in its lower-cased
      haystack. */
  predicate Matches(u: User, query: string) {
    Occurs(Lower(Haystack(u)), Lower(query))
  }

  /** The rows the table shows: the matching records, in store order. */
  function Filtered(store: seq<User>, query: string): (r: seq<User>)
    ensures IsSubsequence(r, store)
    ensures forall u :: u in r <==> u in store && Matches(u, query)
    ensures forall u: User :: multiset(r)[u] == if Matches(u, query) then multiset(store)[u] else 0
  {
    Filter(store, (u: User) => Matches(u, query))
  }

  /** An empty search box shows the whole store. */
  lemma FilteredEmptyQuery(store: seq<User>)
    ensures Filtered(store, "") == store
  {
    forall i | 0 <= i < |store|
      ensures Matches(store[i], "")
    {
      OccursEmpty(Lower(Haystack(store[i])));
    }
    FilterKeepsAll(store, (u: User) => Matches(u, ""));
  }

  /** Matching ignores the case of the query. */
  lemma MatchesLowerQuery(u: User, query: string)
    ensures Matches(u, Lower(query)) == Matches(u, query)
  {
    LowerIdempotent(query);
  }

  /** Lower-casing the query does not change what is shown. */
  lemma FilteredLowerQuery(store: seq<User>, query: string)
    ensures Filtered(store, Lower(query)) == Filtered(store, query)
  {
    forall i | 0 <= i < |store|
      ensures Matches(store[i], Lower(query)) == Matches(store[i], query)
    {
      MatchesLowerQuery(store[i], query);
    }
    FilterCongruent(store, (u: User) => Matches(u, Lower(query)), (u: User) => Matches(u, query));
  }

  /** The record with its searched fields lower-cased. */
  function LowerFields(u: User): User {
    u.(name := Lower(u.name), email := Lower(u.email),
       location := Lower(u.location), occupation := Lower(u.occupation))
  }

  /** Lower-casing the haystack lower-cases each searched field and keeps
      the separators. */
  lemma LowerHaystack(u: User)
    ensures Lower(Haystack(u)) ==
      Lower(u.name) + " " + Lower(u.email) + " " + Lower(u.location) + " " + Lower(u.occupation)
  {
  }

  /** Matching ignores the case of the record's searched fields. */
  lemma MatchesLowerFields(u: User, query: string)
    ensures Matches(LowerFields(u), query) == Matches(u, query)
  {
    LowerIdempotent(u.name);
    LowerIdempotent(u.email);
    LowerIdempotent(u.location);
    LowerIdempotent(u.occupation);
    LowerHaystack(u);
    LowerHaystack(LowerFields(u));
  }
}
