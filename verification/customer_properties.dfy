/** Properties of the in-memory customer name search. */
module CustomerProperties {
  import opened Wrappers
  import opened JsString
  import opened JsArray
  import opened Customers

  /**
   * Every full name holds a space, and it splits into the tokens of the first
   * name followed by the tokens of the last name, so at least two tokens.
   */
  lemma FullNameTokens(c: Customer)
    ensures Space in FullName(c)
    ensures Split(FullName(c), Space) == Split(c.firstName, Space) + Split(c.lastName, Space)
    ensures |Split(FullName(c), Space)| >= 2
  {
    SplitAroundSeparator(c.firstName, c.lastName, Space);
  }

  /**
   * A full name determines the first and last name once the length of the
   * first name is known: the first name is the text before the inserted
   * space and the last name the text after it.
   */
  lemma FullNameDeterminesFields(c: Customer, d: Customer)
    requires FullName(c) == FullName(d)
    requires |c.firstName| == |d.firstName|
    ensures c.firstName == d.firstName && c.lastName == d.lastName
  {
    var n := |c.firstName|;
    assert FullName(c)[..n] == c.firstName && FullName(d)[..n] == d.firstName;
    assert FullName(c)[n + 1..] == c.lastName && FullName(d)[n + 1..] == d.lastName;
  }

  /**
   * Without that length it does not: "Mary Ann" + "Lee" and "Mary" + "Ann Lee"
   * share the full name "Mary Ann Lee", and a search for it returns both.
   */
  lemma FullNameAmbiguous(a: Customer, b: Customer)
    requires a.firstName == "Mary Ann" && a.lastName == "Lee"
    requires b.firstName == "Mary" && b.lastName == "Ann Lee"
    ensures a != b
    ensures FullName(a) == FullName(b) == "Mary Ann Lee"
    ensures GetByName([a, b], "Mary Ann Lee") == Success([a, b])
  {
    assert FullName(a) == "Mary Ann Lee";
    assert FullName(b) == "Mary Ann Lee";
    SharedFullNameFound(a, b, "Mary Ann Lee");
  }

  /** Searching for a customer's full name matches that customer. */
  lemma FullNameMatchesItself(c: Customer)
    ensures Matches(c, FullName(c))
  {
    assert FullName(c)[|c.firstName|] == Space;
  }

  /** Two customers with the same full name are both found, in order, by searching the list of the two for it. */
  lemma SharedFullNameFound(a: Customer, b: Customer, fullName: string)
    requires FullName(a) == fullName && FullName(b) == fullName
    ensures GetByName([a, b], fullName) == Success([a, b])
  {
    FullNameMatchesItself(a);
    FullNameMatchesItself(b);
    SearchPair(a, b, fullName);
    assert [a] + [b] == [a, b];
  }

  /**
   * The "No such customer" guard never fires: whatever the list and the query,
   * `searchCustomer || listOfCustomers` is an array, never `undefined`.
   */
  lemma NotFoundNeverRaised(customers: seq<Customer>, searchedName: string)
    ensures var (searchCustomer, listOfCustomers) := SearchBranches(customers, searchedName);
            Or(searchCustomer, listOfCustomers) != Undefined
    ensures !GetByName(customers, searchedName).IsFailure()
  {
  }

  /**
   * A search returns the empty list exactly when no customer in the list
   * matches the query; an unmatched search is not an error.
   */
  lemma EmptyResultIffNoMatch(customers: seq<Customer>, searchedName: string)
    ensures GetByName(customers, searchedName) == Success([])
            <==> forall c :: c in customers ==> !Matches(c, searchedName)
  {
    var r := GetByName(customers, searchedName).value;
    if r != [] {
      assert r[0] in r;
    }
  }

  /**
   * A query without a space finds exactly the customers whose first name or
   * last name is the query.
   */
  lemma SingleTokenSearch(customers: seq<Customer>, searchedName: string)
    requires Space !in searchedName
    ensures forall c :: c in GetByName(customers, searchedName).value
                        <==> c in customers && (c.firstName == searchedName || c.lastName == searchedName)
  {
  }

  /**
   * A query with a space finds exactly the customers whose full name is the
   * query; a customer whose first or last name alone equals it is not found.
   */
  lemma MultiTokenSearch(customers: seq<Customer>, searchedName: string)
    requires Space in searchedName
    ensures forall c :: c in GetByName(customers, searchedName).value
                        <==> c in customers && FullName(c) == searchedName
  {
  }

  /** No query without a space is anyone's full name. */
  lemma SingleTokenNeverFullName(c: Customer, searchedName: string)
    requires Space !in searchedName
    ensures FullName(c) != searchedName
  {
  }

  /**
   * A first name that contains a space cannot be found by searching for it:
   * the query takes the full-name branch and the full name is longer.
   */
  lemma SpacedFirstNameNotFound(customers: seq<Customer>, c: Customer)
    requires Space in c.firstName
    ensures c !in GetByName(customers, c.firstName).value
  {
    assert |FullName(c)| > |c.firstName|;
  }

  /**
   * The empty query has a single empty token, so it finds the customers with
   * an empty first name or an empty last name.
   */
  lemma EmptyQuerySearch(customers: seq<Customer>)
    ensures Split("", Space) == [""]
    ensures forall c :: c in GetByName(customers, "").value
                        <==> c in customers && (c.firstName == "" || c.lastName == "")
  {
  }

  /** The search is `filter` with the `Matches` predicate. */
  lemma GetByNameIsFilter(customers: seq<Customer>, searchedName: string)
    ensures GetByName(customers, searchedName) == Success(Filter(customers, c => Matches(c, searchedName)))
  {
    BranchesFilterMatches(customers, searchedName);
  }

  /** Searching a concatenation of lists searches each list and concatenates. */
  lemma GetByNameAppend(a: seq<Customer>, b: seq<Customer>, searchedName: string)
    ensures GetByName(a + b, searchedName).value
            == GetByName(a, searchedName).value + GetByName(b, searchedName).value
  {
    GetByNameIsFilter(a + b, searchedName);
    GetByNameIsFilter(a, searchedName);
    GetByNameIsFilter(b, searchedName);
    FilterAppend(a, b, c => Matches(c, searchedName));
  }

  /** Searching the result of a search again with the same query changes nothing. */
  lemma GetByNameIdempotent(customers: seq<Customer>, searchedName: string)
    ensures GetByName(GetByName(customers, searchedName).value, searchedName)
            == GetByName(customers, searchedName)
  {
    var r := GetByName(customers, searchedName).value;
    GetByNameIsFilter(customers, searchedName);
    GetByNameIsFilter(r, searchedName);
    FilterIdempotent(customers, c => Matches(c, searchedName));
  }

  /** Searching a two-customer list tests each customer in turn. */
  lemma SearchPair(a: Customer, b: Customer, searchedName: string)
    ensures GetByName([a, b], searchedName)
            == Success((if Matches(a, searchedName) then [a] else []) + (if Matches(b, searchedName) then [b] else []))
  {
    GetByNameIsFilter([a, b], searchedName);
    FilterPair(a, b, c => Matches(c, searchedName));
  }

  /**
   * A single name finds the customer with that first name, and only it when
   * no other customer in the list has that first or last name.
   */
  lemma SingleNameExample(alice: Customer, other: Customer)
    requires alice.firstName == "Alice"
    requires other.firstName != "Alice" && other.lastName != "Alice"
    ensures GetByName([alice, other], "Alice") == Success([alice])
  {
    assert Space !in "Alice";
    assert Matches(alice, "Alice");
    assert !Matches(other, "Alice");
    SearchPair(alice, other, "Alice");
    assert [alice] + [] == [alice];
  }

  /** The exact full name finds the customer, wherever it is in the list. */
  lemma FullNameExample(customers: seq<Customer>, alice: Customer)
    requires alice.firstName == "Alice" && alice.lastName == "Smith"
    requires alice in customers
    ensures alice in GetByName(customers, "Alice Smith").value
  {
    assert "Alice Smith"[5] == Space;
    assert FullName(alice) == "Alice Smith";
  }

  /** A double space between the names does not find "Alice Smith". */
  lemma DoubleSpaceExample(customers: seq<Customer>, alice: Customer)
    requires alice.firstName == "Alice" && alice.lastName == "Smith"
    ensures alice !in GetByName(customers, "Alice  Smith").value
  {
    assert "Alice  Smith"[5] == Space;
    assert |FullName(alice)| == 11;
  }

  /** Matching is case-sensitive: "alice" finds neither the first nor the last name "Alice". */
  lemma CaseSensitiveExample(customers: seq<Customer>, alice: Customer)
    requires alice.firstName == "Alice" && alice.lastName == "Smith"
    ensures alice !in GetByName(customers, "alice").value
  {
    assert Space !in "alice";
    assert "alice"[0] != alice.firstName[0];
    assert "alice"[0] != alice.lastName[0];
  }
}
