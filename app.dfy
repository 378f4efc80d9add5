/**
 * The demo page's own logic (`AppComponent`, src/app/app.component.ts): the
 * search filter over its list of users and the id-based `compareWith` it
 * gives the select.
 */
module App {
  import opened Wrappers
  import opened Sequences
  import opened SelectLogic

  /** A user of the demo list; its fields are never reassigned. */
  class User {
    const id: int
    const name: string
    const nickname: string
    const country: string
    const disabled: bool

    constructor (id: int, name: string, nickname: string, country: string, disabled: bool)
      ensures this.id == id && this.name == name && this.nickname == nickname
      ensures this.country == country && this.disabled == disabled
    {
      this.id := id;
      this.name := name;
      this.nickname := nickname;
      this.country := country;
      this.disabled := disabled;
    }
  }

  // ---------------------------------------------------------------------
  // Case-insensitive prefix search
  // ---------------------------------------------------------------------

  /** `toLowerCase` on one character, for the ASCII letters. */
  function LowerChar(c: char): char
  {
    if 'A' <= c <= 'Z' then (c as int + 32) as char else c
  }

  /** `toLowerCase`, character by character. */
  function ToLower(s: string): (r: string)
    ensures |r| == |s|
    ensures forall i :: 0 <= i < |s| ==> r[i] == LowerChar(s[i])
    ensures forall i :: 0 <= i < |r| ==> !('A' <= r[i] <= 'Z')
  {
    seq(|s|, i requires 0 <= i < |s| => LowerChar(s[i]))
  }

  /** Lower-casing twice is lower-casing once. */
  lemma ToLowerIdempotent(s: string)
    ensures ToLower(ToLower(s)) == ToLower(s)
  {
  }

  /** `s.startsWith(prefix)`. */
  predicate StartsWith(s: string, prefix: string)
  {
    |prefix| <= |s| && s[..|prefix|] == prefix
  }

  /** The filter's test: the lower-cased name starts with the lower-cased query. */
  predicate NameMatches(queryString: string, user: User)
  {
    StartsWith(ToLower(user.name), ToLower(queryString))
  }

  /** `user => NameMatches(queryString, user)`. */
  function MatchesQuery(queryString: string): User -> bool
  {
    (u: User) => NameMatches(queryString, u)
  }

  /**
   * What onSearchChanged assigns to `filteredUsers`: the users whose
   * lower-cased name starts with the lower-cased query, in their order,
   * each as often as in `users`.
   */
  function FilterByPrefix(users: seq<User>, queryString: string): (r: seq<User>)
    ensures IsSubsequence(r, users)
    ensures forall u :: u in r ==> u in users && NameMatches(queryString, u)
    ensures forall u :: u in users && NameMatches(queryString, u) ==> u in r && multiset(r)[u] == multiset(users)[u]
  {
    Filter(users, MatchesQuery(queryString))
  }

  /** An empty query keeps every user, in order. */
  lemma EmptyQueryKeepsAll(users: seq<User>)
    ensures FilterByPrefix(users, "") == users
  {
    assert ToLower("") == "";
    FilterKeepsAll(users, MatchesQuery(""));
  }

  /** The search ignores the case of the query. */
  lemma FilterIgnoresQueryCase(users: seq<User>, queryString: string)
    ensures FilterByPrefix(users, queryString) == FilterByPrefix(users, ToLower(queryString))
  {
    ToLowerIdempotent(queryString);
    FilterAgreeing(users, MatchesQuery(queryString), MatchesQuery(ToLower(queryString)));
  }

  /** A longer query keeps a subsequence of what its prefix keeps. */
  lemma {:induction false} LongerQueryNarrows(users: seq<User>, queryString: string, more: string)
    ensures IsSubsequence(FilterByPrefix(users, queryString + more), FilterByPrefix(users, queryString))
    decreases |users|
  {
    if users != [] {
      var rest := users[1..];
      LongerQueryNarrows(rest, queryString, more);
      assert users == [users[0]] + rest;
      var u := users[0];
      if NameMatches(queryString + more, u) {
        var n, q, m := ToLower(u.name), ToLower(queryString), ToLower(queryString + more);
        assert m[..|q|] == q;
        assert n[..|q|] == n[..|m|][..|q|];
      }
    }
  }

  // ---------------------------------------------------------------------
  // compareWithFn
  // ---------------------------------------------------------------------

  /** `user?.id`: `undefined` (None) for a null user. */
  function IdOf(user: User?): Option<int>
  {
    if user == null then None else Some(user.id)
  }

  /** compareWithFn: `user?.id === user2?.id`. */
  function CompareWithFn(user: User?, user2: User?): (r: bool)
    ensures r <==> (user == null && user2 == null) || (user != null && user2 != null && user.id == user2.id)
  {
    IdOf(user) == IdOf(user2)
  }

  /** compareWithFn is an equivalence: reflexive, symmetric and transitive. */
  lemma CompareWithFnIsEquivalence(a: User?, b: User?, c: User?)
    ensures CompareWithFn(a, a)
    ensures CompareWithFn(a, b) == CompareWithFn(b, a)
    ensures CompareWithFn(a, b) && CompareWithFn(b, c) ==> CompareWithFn(a, c)
  {
  }

  /** compareWithFn as the select's `compareWith` over option values. */
  function SameId(): (User, User) -> bool
  {
    (a: User, b: User) => CompareWithFn(a, b)
  }

  /**
   * A stored user that is a different object from every option, but shares
   * its id with one, is rewritten to an option with that id.
   */
  lemma {:induction false} StoredUserRewrittenById(options: seq<User>, stored: User, k: nat)
    requires stored !in options
    requires k < |options| && options[k].id == stored.id
    ensures Canonical(options, SameId(), stored) in options
    ensures Canonical(options, SameId(), stored).id == stored.id
  {
    assert SameId()(options[k], stored);
  }

  /** The demo page: the full user list and the list the search shows. */
  class AppComponent {
    var users: seq<User>
    var filteredUsers: seq<User>

    constructor (users: seq<User>)
      ensures this.users == users && filteredUsers == users
    {
      this.users := users;
      filteredUsers := users;
    }

    /** The select's `searchChanged` handler. */
    method OnSearchChanged(queryString: string)
      modifies this`filteredUsers
      ensures filteredUsers == FilterByPrefix(users, queryString)
      ensures queryString == "" ==> filteredUsers == users
    {
      filteredUsers := FilterByPrefix(users, queryString);
      EmptyQueryKeepsAll(users);
    }
  }
}
