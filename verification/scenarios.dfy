/** Concrete runs of the directory view: prepending on add, refusing a
    nameless draft, in-place update, deletion, search, and a full
    add-edit-commit session. */
module Scenarios {
  import opened Optional
  import opened Users
  import opened RecordStore
  import opened Search
  import opened Text
  import opened Directory

  function Person(id: Option<Id>, name: string, email: string): User {
    User(id, name, "", email, "", "", "", "", true, "1/1/2024")
  }

  /** Store [A, B], submitting C gives [C, A, B]. */
  lemma AddPrependsExample()
    ensures var a := Person(Some(1), "A", "a@x.com");
      var b := Person(Some(2), "B", "b@x.com");
      var c := Person(None, "C", "c@x.com");
      var s := State([a, b], c, None, "");
      Commit(s, 3, "2/2/2024").state.store == [c.(id := Some(3)), a, b]
  {
  }

  /** A draft without a name is refused with the notification. */
  lemma AddRejectsExample()
    ensures var d := Person(None, "", "x@x.com");
      var s := State([], d, None, "");
      Commit(s, 3, "2/2/2024") == Step(s, Some(RequiredAlert))
  {
  }

  /** Store [A, B, C], updating B gives [A, B', C] with B's id. */
  lemma UpdateExample()
    ensures var a := Person(Some(1), "A", "a@x.com");
      var b := Person(Some(2), "B", "b@x.com");
      var c := Person(Some(3), "C", "c@x.com");
      var s := BeginEdit(State([a, b, c], EmptyDraft("1/1/2024"), None, ""), b);
      var s' := Change(s, Name, "Bea");
      Commit(s', 9, "2/2/2024").state.store == [a, b.(name := "Bea"), c]
  {
  }

  /** [C] keeps C when deleting an id C does not carry. */
  lemma DeleteKeepsSingle(c: User)
    requires c.id == Some(3)
    ensures RemoveById([c], 2) == [c]
  {
  }

  /** [B, C] loses B when deleting B's id. */
  lemma DeleteHead(b: User, c: User)
    requires b.id == Some(2) && c.id == Some(3)
    ensures RemoveById([b, c], 2) == [c]
  {
  }

  /** Store [A, B, C], deleting B's id gives [A, C]. */
  lemma DeleteExample(a: User, b: User, c: User)
    requires a.id == Some(1) && b.id == Some(2) && c.id == Some(3)
    ensures RemoveById([a, b, c], 2) == [a, c]
  {
    DeleteHead(b, c);
    assert [a, b, c][1..] == [b, c];
    RemoveUnfold([a, b, c], 2);
  }

  /** Deleting an id no record carries changes nothing. */
  lemma DeleteUnknownExample()
    ensures var a := Person(Some(1), "A", "a@x.com");
      var b := Person(Some(2), "B", "b@x.com");
      var s := State([a, b], EmptyDraft("1/1/2024"), None, "");
      Delete(s, 7) == s
  {
  }

  /** The record the search examples are run against. */
  function Ada(): User {
    User(Some(1), "Ada Lovelace", "", "ada@x.com", "London", "", "", "Engineer", true, "")
  }

  /** In a haystack of that shape, "lond" starts at index 23. */
  lemma LondAt23(n: string, e: string, l: string, o: string, h: string)
    requires |n| == 12 && |e| == 9 && l == "london"
    requires h == n + " " + e + " " + l + " " + o
    ensures OccursAt(h, "lond", 23)
  {
  }

  /** No 'p' anywhere in that haystack. */
  lemma NoPIn(n: string, e: string, l: string, o: string, h: string)
    requires n == "ada lovelace" && e == "ada@x.com" && l == "london" && o == "engineer"
    requires h == n + " " + e + " " + l + " " + o
    ensures 'p' !in h
  {
  }

  /** The search matches "LOND" against London in any case, and does not
      match "paris". */
  lemma SearchExample()
    ensures Matches(Ada(), "LOND") && !Matches(Ada(), "paris")
  {
    var ada := Ada();
    var n, e, l, o := "ada lovelace", "ada@x.com", "london", "engineer";
    assert Lower(ada.name) == n && Lower(ada.email) == e;
    assert Lower(ada.location) == l && Lower(ada.occupation) == o;
    var h := n + " " + e + " " + l + " " + o;
    LowerHaystack(ada);
    assert Lower(Haystack(ada)) == h;
    LondAt23(n, e, l, o, h);
    assert Lower("LOND") == "lond";
    assert Lower("paris") == "paris";
    NoPIn(n, e, l, o, h);
    NotOccursWithoutFirst(h, "paris");
  }

  /** Starting from an empty store: add Bob, open him for editing, set his
      location and submit. One record remains, now located in NYC, with the
      id the add gave him, and the form is reset. */
  lemma EndToEndExample()
    ensures var s0 := Change(Change(Initial("1/1/2024"), Name, "Bob"), Email, "bob@x.com");
      var s1 := Commit(s0, 42, "1/1/2024").state;
      var s2 := Change(BeginEdit(s1, s1.store[0]), Location, "NYC");
      var s3 := Commit(s2, 43, "1/1/2024").state;
      && |s1.store| == 1 && s1.store[0].isActive
      && |s3.store| == 1
      && s3.store[0].location == "NYC" && s3.store[0].id == Some(42)
      && s3.draft == EmptyDraft("1/1/2024") && s3.editingId == None
  {
  }
}
