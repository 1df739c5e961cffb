/** The `find_method` filter of `main`: substring match on the method name, and the exit status. */
module Find {
  import opened GoStrings
  import opened Descriptors

  /** `strings.Index(s.Method, term) != -1`. */
  predicate IsMatch(r: ServiceMethod, term: string)
  {
    Index(r.methodName, term) != -1
  }

  /** The records that match, in their original order. */
  function Matches(sm: seq<ServiceMethod>, term: string): seq<ServiceMethod>
  {
    if sm == [] then []
    else Matches(sm[..|sm| - 1], term) + (if IsMatch(sm[|sm| - 1], term) then [sm[|sm| - 1]] else [])
  }

  /**
   * The loop over `sm` that prints each match and sets `found`, followed by
   * `os.Exit(0)` when something was found and `os.Exit(1)` otherwise.
   */
  method FindMatches(sm: seq<ServiceMethod>, term: string) returns (printed: seq<ServiceMethod>, status: int)
    ensures printed == Matches(sm, term)
    ensures status == (if printed != [] then 0 else 1)
  {
    var found := false;
    printed := [];
    for i := 0 to |sm|
      invariant printed == Matches(sm[..i], term)
      invariant found == (printed != [])
    {
      assert sm[..i + 1][..i] == sm[..i];
      if Index(sm[i].methodName, term) != -1 {
        printed := printed + [sm[i]];
        found := true;
      }
    }
    assert sm[..|sm|] == sm;
    if found {
      status := 0;
    } else {
      status := 1;
    }
  }

  /** A record is printed exactly when it is one of the records and its method name contains the term. */
  lemma {:induction false} MatchesMembership(sm: seq<ServiceMethod>, term: string)
    ensures forall r :: r in Matches(sm, term) <==> r in sm && Contains(r.methodName, term)
    decreases |sm|
  {
    if sm != [] {
      var init := sm[..|sm| - 1];
      MatchesMembership(init, term);
      assert sm == init + [sm[|sm| - 1]];
    }
  }

  /** Matching keeps the original order: it works piece by piece. */
  lemma {:induction false} MatchesAppend(a: seq<ServiceMethod>, b: seq<ServiceMethod>, term: string)
    ensures Matches(a + b, term) == Matches(a, term) + Matches(b, term)
    decreases |b|
  {
    if b == [] {
      assert a + b == a;
    } else {
      var bi := b[..|b| - 1];
      assert (a + b)[..|a + b| - 1] == a + bi;
      assert (a + b)[|a + b| - 1] == b[|b| - 1];
      MatchesAppend(a, bi, term);
    }
  }

  /** Something is printed exactly when some method name contains the term. */
  lemma FoundIffSomeMatch(sm: seq<ServiceMethod>, term: string)
    ensures Matches(sm, term) != [] <==> exists r :: r in sm && Contains(r.methodName, term)
  {
    MatchesMembership(sm, term);
    if Matches(sm, term) != [] {
      assert Matches(sm, term)[0] in Matches(sm, term);
    }
  }

  /** A term whose first character never appears in `s` is not part of `s`. */
  lemma MissingFirstChar(s: string, sub: string)
    requires sub != [] && sub[0] !in s
    ensures !Contains(s, sub)
  {
    forall i
      ensures !OccursAt(s, sub, i)
    {
      if 0 <= i && i + |sub| <= |s| {
        assert s[i] in s;
        assert s[i..i + |sub|][0] == s[i] != sub[0];
      }
    }
  }

  /** `find_method Get` over GetUser, SetUser and GetOrder prints GetUser and GetOrder. */
  lemma FindExample()
    ensures var getUser := ServiceMethod("pkg.Users", "GetUser", "");
      var setUser := ServiceMethod("pkg.Users", "SetUser", "");
      var getOrder := ServiceMethod("pkg.Orders", "GetOrder", "");
      Matches([getUser, setUser, getOrder], "Get") == [getUser, getOrder]
  {
    var getUser := ServiceMethod("pkg.Users", "GetUser", "");
    var setUser := ServiceMethod("pkg.Users", "SetUser", "");
    var getOrder := ServiceMethod("pkg.Orders", "GetOrder", "");
    assert OccursAt("GetUser", "Get", 0);
    assert OccursAt("GetOrder", "Get", 0);
    MissingFirstChar("SetUser", "Get");
    var sm := [getUser, setUser, getOrder];
    assert sm[..2] == [getUser, setUser];
    assert [getUser, setUser][..1] == [getUser];
    assert [getUser][..0] == [];
    assert Matches([getUser], "Get") == [getUser];
    assert Matches([getUser, setUser], "Get") == [getUser];
  }

  /** No match: nothing printed, so `FindMatches` reports exit status 1. */
  lemma NotFoundExample()
    ensures Matches([ServiceMethod("pkg.Users", "SetUser", "")], "Get") == []
  {
    MissingFirstChar("SetUser", "Get");
    assert [ServiceMethod("pkg.Users", "SetUser", "")][..0] == [];
  }
}
