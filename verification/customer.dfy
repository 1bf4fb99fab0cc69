/**
 * The in-memory part of the Lunchly `Customer` model: the customer record, its
 * full name, and the name search over an already-fetched list of customers.
 */
module Customers {
  import opened Wrappers
  import opened JsString
  import opened JsArray

  /**
   * A customer as held in memory. `id` is absent until the database assigns
   * one; `phone` and `notes` are optional and play no part in the search.
   */
  datatype Customer = Customer(
    id: Option<int>,
    firstName: string,
    lastName: string,
    phone: Option<string>,
    notes: Option<string>)

  /** The separator between a first and a last name, and between query tokens. */
  const Space: char := ' '

  /** The status code carried by a "No such customer" error. */
  const NotFoundStatus: int := 404

  /** The error `getByName` is written to throw when nothing is found. */
  datatype SearchError = NotFound(message: string, status: int)

  /**
   * The customer's full name: the first name, one space, the last name. The
   * first name is the text before that space and the last name the text after
   * it, so the name always holds a space.
   */
  function FullName(c: Customer): (name: string)
    ensures |name| == |c.firstName| + 1 + |c.lastName|
    ensures name[|c.firstName|] == Space
    ensures name[..|c.firstName|] == c.firstName && name[|c.firstName| + 1..] == c.lastName
  {
    c.firstName + [Space] + c.lastName
  }

  /** The JavaScript values `getByName` keeps in its two result variables. */
  datatype JsValue = Undefined | Array(elements: seq<Customer>)

  /** JavaScript truthiness of those values: every array, even an empty one, is truthy. */
  predicate Truthy(v: JsValue)
  {
    v.Array?
  }

  /**
   * JavaScript `a || b`: `a` if it is truthy, otherwise `b`. The result is one
   * of the operands, and it is truthy as soon as either operand is, so it is
   * `undefined` only when both operands are.
   */
  function Or(a: JsValue, b: JsValue): (r: JsValue)
    ensures Truthy(a) ==> r == a
    ensures r == a || r == b
    ensures Truthy(a) || Truthy(b) ==> Truthy(r)
    ensures r == Undefined <==> a == Undefined && b == Undefined
  {
    if Truthy(a) then a else b
  }

  /**
   * The single-token test: the token is the first name or the last name. A
   * string that passes it is never the same customer's full name, so the two
   * callbacks of the search never both accept one customer for one query. On
   * a query without a space it agrees with the reference predicate `Matches`.
   */
  predicate MatchesToken(c: Customer, token: string)
    ensures !(MatchesToken(c, token) && MatchesFullName(c, token))
    ensures Space !in token ==> (MatchesToken(c, token) <==> Matches(c, token))
  {
    c.firstName == token || c.lastName == token
  }

  /**
   * The multi-token test: the whole query is the full name. It can only hold
   * for a query with a space, and on such a query it agrees with `Matches`.
   */
  predicate MatchesFullName(c: Customer, query: string)
    ensures MatchesFullName(c, query) ==> Space in query
    ensures Space in query ==> (MatchesFullName(c, query) <==> Matches(c, query))
  {
    var name := FullName(c);
    assert name[|c.firstName|] == Space;
    name == query
  }

  /**
   * What a search for `query` finds, stated on the query text: a query without
   * a space names a first or a last name, a query with a space names a full name.
   * Both comparisons are exact and case-sensitive.
   */
  predicate Matches(c: Customer, query: string)
  {
    if Space in query then FullName(c) == query else c.firstName == query || c.lastName == query
  }

  /**
   * The pair (`searchCustomer`, `listOfCustomers`) after the if/else of
   * `getByName`: exactly one of them is assigned an array, the other stays
   * `undefined`.
   */
  function SearchBranches(customers: seq<Customer>, searchedName: string): (r: (JsValue, JsValue))
    ensures r.0.Array? != r.1.Array?
    ensures r.1.Array? <==> Space !in searchedName
  {
    var name := Split(searchedName, Space);
    if |name| == 1 then
      var token := name[0];
      (Undefined, Array(Filter(customers, c => MatchesToken(c, token))))
    else
      (Array(Filter(customers, c => MatchesFullName(c, searchedName))), Undefined)
  }

  /**
   * Whichever branch the split chooses, the array it assigns is `filter` with
   * the reference predicate `Matches`.
   */
  lemma BranchesFilterMatches(customers: seq<Customer>, searchedName: string)
    ensures var (searchCustomer, listOfCustomers) := SearchBranches(customers, searchedName);
            Or(searchCustomer, listOfCustomers) == Array(Filter(customers, c => Matches(c, searchedName)))
  {
    var name := Split(searchedName, Space);
    if |name| == 1 {
      var token := name[0];
      FilterCongruent(customers, c => MatchesToken(c, token), c => Matches(c, searchedName));
    } else {
      FilterCongruent(customers, c => MatchesFullName(c, searchedName), c => Matches(c, searchedName));
    }
  }

  /**
   * `Customer.getByName(customers, searchedName)`. The "No such customer"
   * guard tests `searchCustomer || listOfCustomers` against `undefined`; one of
   * them is always an array, so the guard never fires and a search that
   * matches nobody returns the empty list. The result keeps exactly the
   * matching customers, each as often as it occurs, in their original order.
   */
  function GetByName(customers: seq<Customer>, searchedName: string): (r: Result<seq<Customer>, SearchError>)
    ensures r.Success?
    ensures IsSubsequence(r.value, customers)
    ensures forall c :: c in r.value <==> c in customers && Matches(c, searchedName)
    ensures forall c :: multiset(r.value)[c] == if Matches(c, searchedName) then multiset(customers)[c] else 0
  {
    var (searchCustomer, listOfCustomers) := SearchBranches(customers, searchedName);
    var found := Or(searchCustomer, listOfCustomers);
    if found == Undefined then
      Failure(NotFound("No such customer: " + searchedName, NotFoundStatus))
    else
      BranchesFilterMatches(customers, searchedName);
      FilterIsSubsequence(customers, c => Matches(c, searchedName));
      Success(found.elements)
  }
}
