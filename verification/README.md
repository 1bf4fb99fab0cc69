# Lunchly customer name search, in Dafny

This project models the in-memory part of the `Customer` model of Lunchly, a
restaurant-reservation web application: the customer record, its full name,
and `Customer.getByName(customers, searchedName)`, the name search that runs
over a list of customers that has already been fetched.

The search cuts the query at every single space (`searchedName.split(" ")`).
It then takes one of two branches:

- One piece (the query has no space): it keeps every customer whose first
  name or last name equals the query.
- More pieces: it keeps every customer whose full name (first name, one
  space, last name) equals the whole query.

Matching is exact JavaScript `===` on strings. It is case-sensitive and does
no trimming, and a double space gives an empty token.

After the branch the code guards with
`(searchCustomer || listOfCustomers) === undefined` and throws a 404
"No such customer" error if it holds. One of the two variables is always an
array, and every array is truthy in JavaScript, even an empty one. So the
guard never fires: an unmatched search returns the empty list.

The model keeps this literally. `Customers.SearchBranches` returns the pair of
JavaScript values `Undefined` / `Array(...)`, and `Customers.Or` is JavaScript
`||` with its truthiness rule. `Customers.GetByName` returns a `Result` whose
`Failure` arm is the 404 error, and its contract proves that the `Failure` arm
is never taken.

Layout:

- `wrappers.dfy`, module `Wrappers`: `Option` for fields that may be
  `undefined`; `Result` for a value or a thrown error.
- `js_string.dfy`, module `JsString`: `String.prototype.split` with a
  one-character separator (`Split`) and its inverse `Array.prototype.join`
  (`Join`), with the round trip in both directions.
- `js_array.dfy`, module `JsArray`: `Array.prototype.filter` (`Filter`) and
  the order-preserving subsequence relation (`IsSubsequence`).
- `customer.dfy`, module `Customers`: the `Customer` record, `FullName`, the
  search predicates, `SearchBranches` and `GetByName`.
- `customer_properties.dfy`, module `CustomerProperties`: lemmas about the
  search.

Sequences are values in Dafny, so `GetByName` cannot change the list it
searches. This matches `filter`, which builds a new array and leaves the
input alone.

`Customers.Matches` is the reference meaning of a search. It chooses the
branch by whether the query contains a space, not by the length of the split.
`GetByName`'s contract and `CustomerProperties.GetByNameIsFilter` connect the
code's split-based branch to that reference.

## Model

| member | source | states |
|---|---|---|
| `JsString.IndexOf` | models/customer.js:61 | the position where `split` cuts first holds the separator, and no earlier position does |
| `JsString.Split` | models/customer.js:61 | `split(" ")` gives at least one piece and no piece contains the separator; there is exactly one piece iff the string has no separator, and then that piece is the whole string (so `""` gives `[""]`) |
| `JsString.SplitLength` | models/customer.js:61 | the number of pieces is the number of separators plus one |
| `JsString.JoinSplit` | models/customer.js:61 | joining the pieces of a split with the separator gives back the original string |
| `JsString.SplitJoin` | models/customer.js:61 | splitting the join of a non-empty list of separator-free pieces gives back exactly those pieces |
| `JsString.SplitUnique` | models/customer.js:61 | the split is the only non-empty list of separator-free pieces whose join is the string |
| `JsString.SplitAroundSeparator` | models/customer.js:61 | the pieces of `a + sep + b` are the pieces of `a` followed by the pieces of `b` |
| `JsArray.Filter` | models/customer.js:65-69 | `filter` keeps exactly the elements that satisfy the callback: each kept element satisfies it, and each element that satisfies it is kept as often as it occurs in the input, while the others are dropped entirely |
| `JsArray.FilterIsSubsequence` | models/customer.js:65-69 | the result of `filter` is a subsequence of its input: the kept elements stay in their original order |
| `JsArray.FilterAppend` | models/customer.js:65-69 | filtering a concatenation is the concatenation of the filtered parts |
| `JsArray.FilterIdempotent` | models/customer.js:65-69 | filtering twice with the same callback equals filtering once |
| `JsArray.FilterCongruent` | models/customer.js:65-69 | two callbacks that agree on every element select the same result |
| `JsArray.FilterPair` | models/customer.js:65-69 | on a two-element array, the result holds the first element, if kept, before the second, if kept |
| `Customers.Or` | models/customer.js:72-77 | JavaScript `a or b` returns `a` when `a` is truthy and otherwise one of its operands; it is truthy whenever either operand is, and `undefined` only when both are |
| `Customers.MatchesToken` | models/customer.js:65-67 | a string equal to a customer's first or last name is never that customer's full name, so the single-token callback and the full-name callback never both accept one customer for one query; on a query without a space the single-token callback agrees with the reference `Matches` |
| `Customers.MatchesFullName` | models/customer.js:69 | the multi-token filter callback (full name equals the query) can only hold for a query with a space, and on such queries agrees with the reference `Matches` |
| `Customers.FullName` | models/customer.js:81-83 | the full name is one character longer than first and last name together; it has a space right after the first name, the first name before that space and the last name after it |
| `Customers.SearchBranches` | models/customer.js:61-70 | exactly one of `searchCustomer` and `listOfCustomers` is assigned an array; `listOfCustomers` is the one assigned iff the query has no space |
| `Customers.BranchesFilterMatches` | models/customer.js:61-70 | whichever branch the split chooses, the assigned array is `filter` with the reference predicate `Matches`: a query without a space tests first and last names, a query with a space tests the full name |
| `Customers.GetByName` | models/customer.js:60-78 | never throws; the result is an order-preserving subsequence of the input; a customer is in it iff it is in the input and matches the query; each matching customer occurs as often as in the input and non-matching ones not at all |
| `CustomerProperties.FullNameTokens` | models/customer.js:81-83 | every full name contains a space and splits into the tokens of the first name followed by those of the last name, so at least two tokens |
| `CustomerProperties.FullNameDeterminesFields` | models/customer.js:82 | two customers with equal full names and equally long first names have equal first and last names |
| `CustomerProperties.FullNameAmbiguous` | models/customer.js:82 | "Mary Ann" + "Lee" and "Mary" + "Ann Lee" are different customers with the same full name, and a search for "Mary Ann Lee" returns both |
| `CustomerProperties.SharedFullNameFound` | models/customer.js:69 | any two customers `a` and `b` with the same full name are both returned, in order, by a search of `[a, b]` for that name |
| `CustomerProperties.FullNameMatchesItself` | models/customer.js:69 | a customer matches a search for their own full name |
| `CustomerProperties.NotFoundNeverRaised` | models/customer.js:72-77 | the JavaScript "or" of `searchCustomer` and `listOfCustomers` is never `undefined`, so the 404 "No such customer" error is never thrown |
| `CustomerProperties.EmptyResultIffNoMatch` | models/customer.js:64-77 | the search returns the empty list, not an error, exactly when no customer in the list matches |
| `CustomerProperties.SingleTokenSearch` | models/customer.js:64-67 | for a query without a space: a customer is returned iff it is in the list and its first or last name equals the query |
| `CustomerProperties.MultiTokenSearch` | models/customer.js:68-69 | for a query with a space: a customer is returned iff it is in the list and its full name equals the query; a first or last name alone does not match |
| `CustomerProperties.SingleTokenNeverFullName` | models/customer.js:64-69 | a query without a space never equals a full name, so the single-token branch never matches through the full name |
| `CustomerProperties.SpacedFirstNameNotFound` | models/customer.js:61-69 | a customer whose first name contains a space is never found by searching for that first name |
| `CustomerProperties.EmptyQuerySearch` | models/customer.js:61-67 | the empty query splits into one empty token and finds exactly the customers with an empty first or last name |
| `CustomerProperties.GetByNameIsFilter` | models/customer.js:64-69 | the search equals `filter` with the reference predicate `Matches`, whichever branch the split chose |
| `CustomerProperties.GetByNameAppend` | models/customer.js:65-69 | searching a concatenation of two lists equals searching each list and concatenating the results |
| `CustomerProperties.GetByNameIdempotent` | models/customer.js:65-69 | searching a search result again with the same query returns it unchanged |
| `CustomerProperties.SearchPair` | models/customer.js:65-69 | searching a two-customer list returns each customer that matches, in list order |
| `CustomerProperties.SingleNameExample` | models/customer.js:64-67 | "Alice" over [a customer named Alice, one with neither name "Alice"] returns exactly the first customer |
| `CustomerProperties.FullNameExample` | models/customer.js:68-69 | "Alice Smith" finds Alice Smith wherever she is in the list |
| `CustomerProperties.DoubleSpaceExample` | models/customer.js:68-69 | "Alice  Smith" (two spaces) does not find Alice Smith |
| `CustomerProperties.CaseSensitiveExample` | models/customer.js:66-67 | "alice" does not find Alice Smith, because matching is case-sensitive |

## Left out

- `Customer.all`, `Customer.get`, `Customer.getTop10` and `save`
  (models/customer.js:21-57, 87-97, 109-134): each is a single SQL statement
  sent through the module-level `db` handle. The database does the ordering,
  grouping, `LIMIT 10` and id assignment. `Customer.get` turns an empty
  result into a 404 "No such customer" error itself
  (models/customer.js:48-54). That is a one-line guard around a database
  round trip, so it is left out with the rest of this foreign I/O.
- `getReservations` (models/customer.js:103-105): it only delegates to the
  `Reservation` model, which is not part of this model.
- `async`/`await` and the `db` handle (models/customer.js:5): plumbing with no
  logic of its own.
- The `Customer` constructor (models/customer.js:11-17) copies its five
  fields, so the `Customer` datatype constructor models it. `phone` and
  `notes` are carried but no search reads them.
- First and last names are typed as strings. In JavaScript a missing name is
  `undefined`, and the template literal in `fullName` would turn it into the
  text "undefined". That case is not modelled.
- A `searchedName` that is not a string (where `split` would throw a
  `TypeError`) and list elements that are not `Customer` objects are ruled
  out by the types.
- Names and queries are modelled as Dafny strings, which are sequences of
  Unicode scalar values. JavaScript strings are sequences of UTF-16 code units
  and may hold unpaired surrogates; such strings are out of scope. On every
  well-formed string `split(" ")` and `===` behave as modelled.
- Customers are modelled as values, not objects. JavaScript `filter` returns a
  new array holding the same `Customer` objects as its input. Object identity
  and that sharing are not modelled, and two distinct objects with equal
  fields are the same value here. The search never depends on identity.
- The thrown error is modelled as its message and its `status` of 404. The
  rest of the JavaScript `Error` object (stack, prototype) is not modelled.
