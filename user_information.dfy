/**
 * UserInformationJWT: what the services learn about the caller from the bearer token.
 * The token of the current request is an explicit optional argument (None when the
 * request is not authenticated with a JWT).
 */
module UserInformation {
  import opened Wrappers
  import opened JavaLang

  /** A claim value as decoded from the token's JSON. */
  datatype Claim =
    | Text(s: string)
    | TextList(items: seq<string>)
    | Json(fields: map<string, Claim>)
    | Scalar(text: string)   // a number or boolean, with its string form

  datatype Jwt = Jwt(subject: Option<string>, claims: map<string, Claim>)

  // ---------------------------------------------------------------------------
  // The three role sources
  // ---------------------------------------------------------------------------

  /** getClaimAsStringList("groups"): a list as is, a single value as a one-element list. */
  function Groups(jwt: Jwt): (r: seq<string>)
    ensures "groups" !in jwt.claims ==> r == []
    ensures "groups" in jwt.claims && jwt.claims["groups"].TextList? ==> r == jwt.claims["groups"].items
  {
    if "groups" !in jwt.claims then []
    else
      match jwt.claims["groups"]
      case TextList(xs) => xs
      case Text(s) => [s]
      case Scalar(t) => [t]
      case Json(_) => []
  }

  /** realm_access.roles, when realm_access is an object whose roles entry is a list. */
  function RealmRoles(jwt: Jwt): (r: seq<string>)
    ensures r != [] ==> "realm_access" in jwt.claims && jwt.claims["realm_access"].Json?
    ensures "realm_access" in jwt.claims && jwt.claims["realm_access"].Json? &&
            "roles" in jwt.claims["realm_access"].fields &&
            jwt.claims["realm_access"].fields["roles"].TextList? ==>
              r == jwt.claims["realm_access"].fields["roles"].items
    ensures ("realm_access" in jwt.claims && jwt.claims["realm_access"].Json? &&
             !("roles" in jwt.claims["realm_access"].fields &&
               jwt.claims["realm_access"].fields["roles"].TextList?)) ==> r == []
  {
    if "realm_access" !in jwt.claims then []
    else
      match jwt.claims["realm_access"]
      case Json(f) => if "roles" in f && f["roles"].TextList? then f["roles"].items else []
      case _ => []
  }

  /** resource_access.account.roles, when both levels are objects and roles is a list. */
  function AccountRoles(jwt: Jwt): (r: seq<string>)
    ensures r != [] ==> "resource_access" in jwt.claims && jwt.claims["resource_access"].Json?
    ensures "resource_access" in jwt.claims && jwt.claims["resource_access"].Json? &&
            "account" in jwt.claims["resource_access"].fields &&
            jwt.claims["resource_access"].fields["account"].Json? &&
            "roles" in jwt.claims["resource_access"].fields["account"].fields &&
            jwt.claims["resource_access"].fields["account"].fields["roles"].TextList? ==>
              r == jwt.claims["resource_access"].fields["account"].fields["roles"].items
    ensures ("resource_access" in jwt.claims && jwt.claims["resource_access"].Json? &&
             !("account" in jwt.claims["resource_access"].fields &&
               jwt.claims["resource_access"].fields["account"].Json?)) ==> r == []
  {
    if "resource_access" !in jwt.claims then []
    else
      match jwt.claims["resource_access"]
      case Json(f) =>
        if "account" in f && f["account"].Json? then
          var account := f["account"].fields;
          if "roles" in account && account["roles"].TextList? then account["roles"].items else []
        else []
      case _ => []
  }

  /** The role entries of all three sources, in the order getRoles appends them. */
  function RoleSources(jwt: Jwt): seq<string> {
    Groups(jwt) + RealmRoles(jwt) + AccountRoles(jwt)
  }

  // ---------------------------------------------------------------------------
  // Stream.distinct
  // ---------------------------------------------------------------------------

  predicate NoDuplicates(xs: seq<string>) {
    forall i, j :: 0 <= i < j < |xs| ==> xs[i] != xs[j]
  }

  /** The position of the first occurrence of x. */
  function FirstIndex(xs: seq<string>, x: string): (i: nat)
    requires x in xs
    ensures i < |xs| && xs[i] == x
    ensures forall j :: 0 <= j < i ==> xs[j] != x
  {
    if xs[0] == x then 0 else 1 + FirstIndex(xs[1..], x)
  }

  lemma {:induction false} FirstIndexOfPrefix(xs: seq<string>, y: string, x: string)
    requires x in xs
    ensures FirstIndex(xs + [y], x) == FirstIndex(xs, x)
  {
    if xs[0] != x {
      assert (xs + [y])[1..] == xs[1..] + [y];
      FirstIndexOfPrefix(xs[1..], y, x);
    }
  }

  /**
   * distinct(): keeps the first occurrence of every element, in encounter order.
   * The result holds the same elements, no element twice, and the elements appear
   * in the order of their first occurrences.
   */
  function Distinct(xs: seq<string>): (r: seq<string>)
    ensures forall x :: x in r <==> x in xs
    ensures NoDuplicates(r)
    ensures forall i, j :: 0 <= i < j < |r| ==> FirstIndex(xs, r[i]) < FirstIndex(xs, r[j])
    decreases |xs|
  {
    if xs == [] then []
    else
      var init := xs[..|xs| - 1];
      var last := xs[|xs| - 1];
      assert xs == init + [last];
      var d := Distinct(init);
      FirstIndicesKept(init, last, d);
      if last in d then d else d + [last]
  }

  /** Helper for Distinct: appending one element does not move the first occurrences already seen. */
  lemma FirstIndicesKept(init: seq<string>, last: string, d: seq<string>)
    requires forall x :: x in d <==> x in init
    ensures forall k :: 0 <= k < |d| ==> FirstIndex(init + [last], d[k]) == FirstIndex(init, d[k])
    ensures last !in init ==> FirstIndex(init + [last], last) == |init|
  {
    forall k | 0 <= k < |d|
      ensures FirstIndex(init + [last], d[k]) == FirstIndex(init, d[k])
    {
      FirstIndexOfPrefix(init, last, d[k]);
    }
  }

  // ---------------------------------------------------------------------------
  // The public helpers
  // ---------------------------------------------------------------------------

  /** getRoles: no token gives the empty list; otherwise the distinct entries of the three sources. */
  function Roles(jwt: Option<Jwt>): (r: seq<string>)
    ensures jwt.None? ==> r == []
    ensures jwt.Some? ==> forall x :: x in r <==> x in Groups(jwt.value) || x in RealmRoles(jwt.value) || x in AccountRoles(jwt.value)
    ensures NoDuplicates(r)
  {
    if jwt.None? then [] else Distinct(RoleSources(jwt.value))
  }

  /** getRoles with its ArrayList: addAll of each present source, then distinct. */
  method GetRoles(jwt: Option<Jwt>) returns (roles: seq<string>)
    ensures roles == Roles(jwt)
    ensures jwt.Some? ==> forall i, j :: 0 <= i < j < |roles| ==>
              FirstIndex(RoleSources(jwt.value), roles[i]) < FirstIndex(RoleSources(jwt.value), roles[j])
  {
    if jwt.None? {
      return [];
    }
    var token := jwt.value;
    var allRoles: seq<string> := [];
    allRoles := allRoles + Groups(token);
    allRoles := allRoles + RealmRoles(token);
    allRoles := allRoles + AccountRoles(token);
    assert allRoles == RoleSources(token);
    roles := Distinct(allRoles);
  }

  /** hasRole: a null role never matches; otherwise some role of the caller equals it ignoring case. */
  function HasRole(jwt: Option<Jwt>, role: Option<string>): (b: bool)
    ensures role.None? ==> !b
    ensures jwt.None? ==> !b
    ensures jwt.Some? && role.Some? ==>
              (b <==> exists r :: r in RoleSources(jwt.value) && EqualsIgnoreCase(r, role.value))
  {
    if role.None? then false
    else
      var roles := Roles(jwt);
      exists i :: 0 <= i < |roles| && EqualsIgnoreCase(roles[i], role.value)
  }

  /** getUserId: the token's subject, or null without a token. */
  function GetUserId(jwt: Option<Jwt>): (id: Option<string>)
    ensures jwt.None? ==> id.None?
    ensures jwt.Some? ==> id == jwt.value.subject
  {
    if jwt.Some? then jwt.value.subject else None
  }

  /** isAuthenticated: a JWT is present. */
  function IsAuthenticated(jwt: Option<Jwt>): (b: bool)
    ensures b <==> jwt.Some?
  {
    jwt.Some?
  }

  /** An unauthenticated request has no roles, no user id and matches no role. */
  lemma AnonymousCaller(role: Option<string>)
    ensures Roles(None) == [] && GetUserId(None) == None && !IsAuthenticated(None)
    ensures !HasRole(None, role)
  {
  }

  /** A source that is absent or has the wrong shape contributes nothing. */
  lemma MalformedSourcesContributeNothing(jwt: Jwt)
    requires "groups" !in jwt.claims || jwt.claims["groups"].Json?
    requires "realm_access" !in jwt.claims || !jwt.claims["realm_access"].Json?
    requires "resource_access" !in jwt.claims || !jwt.claims["resource_access"].Json?
    ensures Roles(Some(jwt)) == []
  {
    assert RoleSources(jwt) == [];
  }

  /** The groups (and realm roles) of the Keycloak-shaped token of the helper's unit tests. */
  function KeycloakGroups(): seq<string> {
    ["default-roles-sau", "manage-users", "offline_access", "lecturer", "uma_authorization"]
  }

  function KeycloakAccountRoles(): seq<string> {
    ["manage-account", "manage-account-links", "view-profile"]
  }

  /** The role claims of the Keycloak-shaped token of the helper's unit tests. */
  predicate HasKeycloakClaims(jwt: Jwt) {
    && "groups" in jwt.claims && jwt.claims["groups"] == TextList(KeycloakGroups())
    && "realm_access" in jwt.claims && jwt.claims["realm_access"] == Json(map["roles" := TextList(KeycloakGroups())])
    && "resource_access" in jwt.claims
    && jwt.claims["resource_access"] == Json(map["account" := Json(map["roles" := TextList(KeycloakAccountRoles())])])
  }

  /** One step of distinct: an element is appended exactly when it has not been seen. */
  lemma DistinctSnoc(xs: seq<string>, x: string)
    ensures Distinct(xs + [x]) == if x in xs then Distinct(xs) else Distinct(xs) + [x]
  {
    assert (xs + [x])[..|xs + [x]| - 1] == xs;
  }

  /** A list without duplicates is its own distinct(). */
  lemma {:induction false} DistinctOfDistinct(xs: seq<string>)
    requires NoDuplicates(xs)
    ensures Distinct(xs) == xs
    decreases |xs|
  {
    if xs != [] {
      var init := xs[..|xs| - 1];
      assert xs == init + [xs[|xs| - 1]];
      DistinctOfDistinct(init);
      DistinctSnoc(init, xs[|xs| - 1]);
    }
  }

  /** Entries already seen leave distinct() unchanged. */
  lemma {:induction false} DistinctOfSeen(xs: seq<string>, ys: seq<string>)
    requires forall y :: y in ys ==> y in xs
    ensures Distinct(xs + ys) == Distinct(xs)
    decreases |ys|
  {
    if ys != [] {
      var init, last := ys[..|ys| - 1], ys[|ys| - 1];
      assert ys == init + [last];
      assert xs + ys == (xs + init) + [last];
      assert last in ys;
      assert last in xs + init;
      DistinctOfSeen(xs, init);
      DistinctSnoc(xs + init, last);
    } else {
      assert xs + ys == xs;
    }
  }

  /** New entries without duplicates are appended as they are. */
  lemma {:induction false} DistinctOfFresh(xs: seq<string>, ys: seq<string>)
    requires NoDuplicates(ys)
    requires forall y :: y in ys ==> y !in xs
    ensures Distinct(xs + ys) == Distinct(xs) + ys
    decreases |ys|
  {
    if ys != [] {
      var init, last := ys[..|ys| - 1], ys[|ys| - 1];
      assert ys == init + [last];
      assert xs + ys == (xs + init) + [last];
      assert last in ys;
      assert forall i :: 0 <= i < |init| ==> init[i] == ys[i];
      assert last !in xs + init;
      DistinctOfFresh(xs, init);
      DistinctSnoc(xs + init, last);
    } else {
      assert xs + ys == xs;
    }
  }

  lemma KeycloakListsDistinct()
    ensures NoDuplicates(KeycloakGroups()) && NoDuplicates(KeycloakAccountRoles())
    ensures forall y :: y in KeycloakAccountRoles() ==> y !in KeycloakGroups() + KeycloakGroups()
  {
  }

  /**
   * For a token with those claims: eight distinct roles, the groups first, then the
   * account roles (the realm roles repeat the groups and add nothing).
   */
  lemma KeycloakTokenRoles(jwt: Jwt)
    requires HasKeycloakClaims(jwt)
    ensures Roles(Some(jwt)) == KeycloakGroups() + KeycloakAccountRoles()
    ensures |Roles(Some(jwt))| == 8
  {
    var g, a := KeycloakGroups(), KeycloakAccountRoles();
    assert Groups(jwt) == g;
    assert RealmRoles(jwt) == g;
    assert AccountRoles(jwt) == a;
    assert RoleSources(jwt) == g + g + a;
    KeycloakListsDistinct();
    DistinctOfDistinct(g);
    DistinctOfSeen(g, g);
    DistinctOfFresh(g + g, a);
  }

  /** A role of the caller that equals the requested one ignoring case makes hasRole true. */
  lemma HasRoleByWitness(jwt: Jwt, role: string, r: string)
    requires r in Roles(Some(jwt)) && EqualsIgnoreCase(r, role)
    ensures HasRole(Some(jwt), Some(role))
  {
    var roles := Roles(Some(jwt));
    var i :| 0 <= i < |roles| && roles[i] == r;
  }

  /** A requested role whose length no role of the caller has never matches. */
  lemma NoRoleOfSameLength(jwt: Jwt, role: string)
    requires forall r :: r in Roles(Some(jwt)) ==> |r| != |role|
    ensures !HasRole(Some(jwt), Some(role))
  {
    var roles := Roles(Some(jwt));
    forall i | 0 <= i < |roles| ensures !EqualsIgnoreCase(roles[i], role) {
      assert roles[i] in roles;
    }
  }

  /** The test token's role list contains "lecturer" and "manage-account" and no entry of length 5 or 9. */
  lemma KeycloakRoleEntries(roles: seq<string>)
    requires roles == KeycloakGroups() + KeycloakAccountRoles()
    ensures "lecturer" in roles && "manage-account" in roles
    ensures forall r :: r in roles ==> |r| != 5 && |r| != 9
  {
    assert roles[3] == "lecturer" && roles[5] == "manage-account";
  }

  /** The case-insensitive matches the unit tests rely on. */
  lemma TestRolesMatchIgnoringCase()
    ensures EqualsIgnoreCase("lecturer", "LECTURER")
    ensures EqualsIgnoreCase("manage-account", "Manage-Account")
  {
  }

  /** "LECTURER" and "Manage-Account" match ignoring case. */
  lemma KeycloakTokenHasRole(jwt: Jwt)
    requires HasKeycloakClaims(jwt)
    ensures HasRole(Some(jwt), Some("LECTURER"))
    ensures HasRole(Some(jwt), Some("Manage-Account"))
  {
    KeycloakTokenRoles(jwt);
    KeycloakRoleEntries(Roles(Some(jwt)));
    TestRolesMatchIgnoringCase();
    HasRoleByWitness(jwt, "LECTURER", "lecturer");
    HasRoleByWitness(jwt, "Manage-Account", "manage-account");
  }

  /** "admin" and "superuser" match none of the token's roles. */
  lemma KeycloakTokenLacksRole(jwt: Jwt)
    requires HasKeycloakClaims(jwt)
    ensures !HasRole(Some(jwt), Some("admin"))
    ensures !HasRole(Some(jwt), Some("superuser"))
  {
    KeycloakTokenRoles(jwt);
    KeycloakRoleEntries(Roles(Some(jwt)));
    NoRoleOfSameLength(jwt, "admin");
    NoRoleOfSameLength(jwt, "superuser");
  }
}
