/**
 Who may see a document: the SQL predicate of `list_tenant_documents` (app/database.py) against the payload
 filter of `search_tenant_knowledge` (app/db/qdrant.py), for the roles that ingestion stores.
 */
module Visibility {
  import opened SqlLike

  const ROLES := {"admin", "analyst", "viewer"}

  /** Python's `split(",")`. */
  function Split(s: string): (parts: seq<string>)
    ensures parts != []
    decreases |s|
  {
    if s == "" then [""]
    else
      var rest := Split(s[1..]);
      if s[0] == ',' then [""] + rest else [[s[0]] + rest[0]] + rest[1..]
  }

  /** Python's `",".join(parts)`. */
  function Join(parts: seq<string>): string {
    if parts == [] then "" else if |parts| == 1 then parts[0] else parts[0] + "," + Join(parts[1..])
  }

  /** `str.strip` and `str.lower`. */
  datatype Text = Text(strip: string -> string, lower: string -> string)

  function Normalize(tx: Text, parts: seq<string>): seq<string> {
    if parts == [] then []
    else
      var rest := Normalize(tx, parts[1..]);
      if tx.strip(parts[0]) == "" then rest else [tx.lower(tx.strip(parts[0]))] + rest
  }

  /** The roles list that ingestion builds from the form field. */
  function RolesList(tx: Text, allowedRoles: string): seq<string> {
    Normalize(tx, Split(allowedRoles))
  }

  /** Ingestion refuses anything else with a ValueError. */
  predicate Accepted(roles: seq<string>) {
    roles != [] && forall r | r in roles :: r in ROLES
  }

  function StringToArray(s: string): seq<string> {
    if s == "" then [] else Split(s)
  }

  /** The row of a document with column `allowed_roles == stored` is listed for `role`. */
  predicate SqlLists(tx: Text, role: string, stored: string) {
    if role == "" || tx.lower(role) == "admin" then true
    else
      var normalized := tx.lower(tx.strip(role));
      normalized in StringToArray(stored) || ILike(stored, "%" + normalized + "%")
  }

  /** The vectors with payload `allowed_roles == roles` pass the search filter for `role`. */
  predicate SearchPasses(role: string, roles: seq<string>) {
    if role == "admin" then exists i :: 0 <= i < |roles| && roles[i] in ROLES else role in roles
  }

  // ---------------------------------------------------------------- Split and join

  ghost predicate NoComma(s: string) {
    forall i :: 0 <= i < |s| ==> s[i] != ','
  }

  lemma {:induction false} SplitOne(s: string)
    requires NoComma(s)
    ensures Split(s) == [s]
  {
    if s != "" {
      SplitOne(s[1..]);
      assert [s[0]] + s[1..] == s;
    }
  }

  lemma {:induction false} SplitCons(s: string, rest: string)
    requires NoComma(s)
    ensures Split(s + "," + rest) == [s] + Split(rest)
  {
    var whole := s + "," + rest;
    if s == "" {
      assert whole[1..] == rest;
    } else {
      SplitCons(s[1..], rest);
      assert whole[1..] == s[1..] + "," + rest;
      assert [s[0]] + s[1..] == s;
    }
  }

  /** Splitting what was joined gives the roles back. */
  lemma {:induction false} SplitJoin(parts: seq<string>)
    requires parts != [] && forall p :: p in parts ==> NoComma(p)
    ensures Split(Join(parts)) == parts
  {
    if |parts| == 1 {
      SplitOne(parts[0]);
    } else {
      SplitJoin(parts[1..]);
      SplitCons(parts[0], Join(parts[1..]));
      assert [parts[0]] + parts[1..] == parts;
    }
  }

  /** Every text is such a join. */
  lemma {:induction false} JoinSplit(s: string)
    ensures Join(Split(s)) == s && forall p :: p in Split(s) ==> NoComma(p)
    decreases |s|
  {
    if s != "" {
      JoinSplit(s[1..]);
      var rest := Split(s[1..]);
      if s[0] == ',' {
        assert ([""] + rest)[1..] == rest;
        assert s == "" + "," + s[1..];
      } else {
        var parts := [[s[0]] + rest[0]] + rest[1..];
        assert parts[1..] == rest[1..] && rest[0] in rest;
        assert forall p :: p in rest[1..] ==> p in rest;
        JoinHead([s[0]], rest);
        assert s == [s[0]] + s[1..];
      }
    }
  }

  lemma JoinHead(x: string, parts: seq<string>)
    requires parts != []
    ensures Join([x + parts[0]] + parts[1..]) == x + Join(parts)
  {
    assert ([x + parts[0]] + parts[1..])[1..] == parts[1..];
    if |parts| > 1 {
      assert x + parts[0] + "," + Join(parts[1..]) == x + (parts[0] + "," + Join(parts[1..]));
    }
  }

  // ---------------------------------------------------------------- The roles of a form text

  /** The role that one part of the text names, if it is not blank. */
  predicate Names(tx: Text, part: string, role: string) {
    tx.strip(part) != "" && tx.lower(tx.strip(part)) == role
  }

  ghost predicate SomeNames(tx: Text, parts: seq<string>, role: string) {
    exists k :: 0 <= k < |parts| && Names(tx, parts[k], role)
  }

  lemma {:induction false} NormalizeIn(tx: Text, parts: seq<string>, role: string)
    ensures role in Normalize(tx, parts) <==> SomeNames(tx, parts, role)
  {
    if parts != [] {
      NormalizeIn(tx, parts[1..], role);
      if SomeNames(tx, parts[1..], role) {
        var k :| 0 <= k < |parts[1..]| && Names(tx, parts[1..][k], role);
        assert Names(tx, parts[k + 1], role);
      }
      if SomeNames(tx, parts, role) {
        var k :| 0 <= k < |parts| && Names(tx, parts[k], role);
        assert k > 0 ==> Names(tx, parts[1..][k - 1], role);
      }
    }
  }

  /** Part by part, in order, each at most once. */
  lemma {:induction false} NormalizeAppend(tx: Text, a: seq<string>, b: seq<string>)
    ensures Normalize(tx, a + b) == Normalize(tx, a) + Normalize(tx, b)
  {
    if a == [] {
      assert a + b == b;
    } else {
      NormalizeAppend(tx, a[1..], b);
      assert (a + b)[1..] == a[1..] + b;
    }
  }

  function OneRole(tx: Text, part: string): seq<string> {
    if tx.strip(part) == "" then [] else [tx.lower(tx.strip(part))]
  }

  lemma NormalizeAt(tx: Text, parts: seq<string>, n: nat)
    requires n < |parts|
    ensures Normalize(tx, parts) == Normalize(tx, parts[..n]) + OneRole(tx, parts[n]) + Normalize(tx, parts[n + 1..])
  {
    var rest := parts[n + 1..];
    assert parts == parts[..n] + ([parts[n]] + rest);
    NormalizeAppend(tx, parts[..n], [parts[n]] + rest);
    assert ([parts[n]] + rest)[1..] == rest;
    assert Normalize(tx, [parts[n]] + rest) == OneRole(tx, parts[n]) + Normalize(tx, rest);
  }

  /**
   The roles list of a text with the parts `parts` between its commas: every part that is not blank, stripped and in
   lower case, in order.
   */
  lemma RolesOfText(tx: Text, parts: seq<string>)
    requires parts != [] && forall p :: p in parts ==> NoComma(p)
    ensures forall role :: role in RolesList(tx, Join(parts)) <==> SomeNames(tx, parts, role)
    ensures forall n {:trigger parts[n]} :: 0 <= n < |parts| ==>
              RolesList(tx, Join(parts)) ==
              Normalize(tx, parts[..n]) + OneRole(tx, parts[n]) + Normalize(tx, parts[n + 1..])
  {
    SplitJoin(parts);
    forall role ensures role in RolesList(tx, Join(parts)) <==> SomeNames(tx, parts, role) {
      NormalizeIn(tx, parts, role);
    }
    forall n {:trigger parts[n]} | 0 <= n < |parts|
      ensures RolesList(tx, Join(parts)) ==
              Normalize(tx, parts[..n]) + OneRole(tx, parts[n]) + Normalize(tx, parts[n + 1..])
    {
      NormalizeAt(tx, parts, n);
    }
  }

  // ---------------------------------------------------------------- Substrings of a joined list

  /** An occurrence that spans the comma holds a comma. */
  lemma SpansComma(a: string, b: string, p: string)
    ensures forall i :: ContainsAt(a + "," + b, p, i) && i <= |a| < i + |p| ==> p[|a| - i] == ','
  {
    var whole := a + "," + b;
    forall i | ContainsAt(whole, p, i) && i <= |a| < i + |p| ensures p[|a| - i] == ',' {
      assert whole[i..i + |p|][|a| - i] == whole[|a|];
    }
  }

  lemma ContainsAcrossComma(a: string, b: string, p: string)
    requires NoComma(p) && p != "" && Contains(a + "," + b, p)
    ensures Contains(a, p) || Contains(b, p)
  {
    var whole := a + "," + b;
    SpansComma(a, b, p);
    var i :| ContainsAt(whole, p, i);
    if i + |p| <= |a| {
      assert whole[i..i + |p|] == a[i..i + |p|];
      assert ContainsAt(a, p, i);
    } else if i > |a| {
      var k := i - |a| - 1;
      assert whole[i..i + |p|] == b[k..k + |p|];
      assert ContainsAt(b, p, k);
    }
  }

  /** A text without a comma that occurs in the joined list occurs in one of the parts. */
  lemma {:induction false} ContainsInPart(parts: seq<string>, p: string)
    requires NoComma(p) && p != "" && Contains(Join(parts), p)
    ensures exists k :: 0 <= k < |parts| && Contains(parts[k], p)
  {
    if parts == [] {
      assert false;
    } else if |parts| == 1 {
      assert Contains(parts[0], p);
    } else {
      ContainsAcrossComma(parts[0], Join(parts[1..]), p);
      if !Contains(parts[0], p) {
        ContainsInPart(parts[1..], p);
        var k :| 0 <= k < |parts[1..]| && Contains(parts[1..][k], p);
        assert parts[k + 1] == parts[1..][k];
      }
    }
  }

  lemma RolesDiffer(r: string, other: string, i: nat)
    requires r in ROLES && other in ROLES && r != other && i + |r| <= |other|
    ensures other[i] != r[0] || other[i + 1] != r[1]
  {
    if r == "admin" && other == "analyst" {
      assert i == 0 || i == 1 || i == 2;
    } else if r == "admin" && other == "viewer" {
      assert i == 0 || i == 1;
    } else {
      assert r == "viewer" && other == "analyst";
      assert i == 0 || i == 1;
    }
  }

  /** No role name is a substring of another. */
  lemma RoleWithinRole(r: string, other: string)
    requires r in ROLES && other in ROLES && Contains(other, r)
    ensures r == other
  {
    var i :| ContainsAt(other, r, i);
    if r != other {
      RolesDiffer(r, other, i);
    }
    assert other[i..i + |r|][0] == other[i] && other[i..i + |r|][1] == other[i + 1];
  }

  lemma {:induction false} PartContained(parts: seq<string>, k: nat)
    requires k < |parts|
    ensures Contains(Join(parts), parts[k])
  {
    var whole := Join(parts);
    if k == 0 {
      assert whole[0..0 + |parts[0]|] == parts[0];
      assert ContainsAt(whole, parts[0], 0);
    } else {
      PartContained(parts[1..], k - 1);
      var i :| ContainsAt(Join(parts[1..]), parts[k], i);
      var j := i + |parts[0]| + 1;
      assert whole[j..j + |parts[k]|] == Join(parts[1..])[i..i + |parts[k]|];
      assert ContainsAt(whole, parts[k], j);
    }
  }

  ghost predicate LowerLetters(s: string) {
    forall i :: 0 <= i < |s| ==> 'a' <= s[i] <= 'z'
  }

  lemma LowerLettersFacts(s: string)
    requires LowerLetters(s)
    ensures NoComma(s) && Plain(s) && Lower(s) == s
  {
  }

  lemma RoleLetters(r: string)
    requires r in ROLES
    ensures LowerLetters(r) && |r| >= 5
  {
    assert forall i :: 0 <= i < |"admin"| ==> 'a' <= "admin"[i] <= 'z';
    assert forall i :: 0 <= i < |"analyst"| ==> 'a' <= "analyst"[i] <= 'z';
    assert forall i :: 0 <= i < |"viewer"| ==> 'a' <= "viewer"[i] <= 'z';
  }

  lemma RoleFacts(r: string)
    requires r in ROLES
    ensures NoComma(r) && Plain(r) && r != "" && Lower(r) == r
  {
    RoleLetters(r);
    LowerLettersFacts(r);
  }

  lemma {:induction false} JoinLower(parts: seq<string>)
    requires forall p :: p in parts ==> p in ROLES
    ensures Lower(Join(parts)) == Join(parts)
  {
    forall i | 0 <= i < |Join(parts)| ensures LowerChar(Join(parts)[i]) == Join(parts)[i] {
      if |parts| == 1 {
        RoleFacts(parts[0]);
      } else if |parts| > 1 {
        RoleFacts(parts[0]);
        JoinLower(parts[1..]);
        var tail := Join(parts[1..]);
        if i > |parts[0]| {
          assert Join(parts)[i] == tail[i - |parts[0]| - 1];
          assert Lower(tail)[i - |parts[0]| - 1] == LowerChar(tail[i - |parts[0]| - 1]);
        } else if i < |parts[0]| {
          assert Lower(parts[0])[i] == LowerChar(parts[0][i]);
        }
      }
    }
  }

  // ---------------------------------------------------------------- Agreement

  lemma SqlMeansMember(roles: seq<string>, role: string)
    requires Accepted(roles) && role in ROLES
    ensures role in StringToArray(Join(roles)) <==> role in roles
    ensures ILike(Join(roles), "%" + role + "%") <==> role in roles
  {
    forall r | r in roles ensures NoComma(r) && r != "" { RoleFacts(r); }
    RoleFacts(role);
    SplitJoin(roles);
    assert |Join(roles)| >= |roles[0]|;
    JoinLower(roles);
    assert Lower("%" + role + "%") == "%" + role + "%" by {
      assert forall i :: 0 <= i < |role| ==> Lower(role)[i] == role[i];
    }
    LikeContains(Join(roles), role);
    if Contains(Join(roles), role) {
      ContainsInPart(roles, role);
      var k :| 0 <= k < |roles| && Contains(roles[k], role);
      RoleWithinRole(role, roles[k]);
    }
    if role in roles {
      var k :| 0 <= k < |roles| && roles[k] == role;
      PartContained(roles, k);
    }
  }

  /** Python's `strip` and `lower` leave the role names alone. */
  ghost predicate KeepsRoles(tx: Text) {
    forall r :: r in ROLES ==> tx.strip(r) == r && tx.lower(r) == r
  }

  /** `TokenData` (app/core/auth.py) rejects every other role, so these are all that a request can carry. */
  predicate TokenRole(role: string) {
    role in ROLES
  }

  /** A role in other spelling is compared stripped and in lower case. */
  lemma SqlNormalizes(tx: Text, role: string, roles: seq<string>)
    requires Accepted(roles) && role != "" && tx.lower(role) != "admin" && tx.lower(tx.strip(role)) in ROLES
    ensures SqlLists(tx, role, Join(roles)) <==> tx.lower(tx.strip(role)) in roles
  {
    SqlMeansMember(roles, tx.lower(tx.strip(role)));
  }

  /** A request without a role, or for an administrator in any case, lists every document. */
  lemma NoRoleListsAll(tx: Text, role: string, stored: string)
    requires role == "" || tx.lower(role) == "admin"
    ensures SqlLists(tx, role, stored)
  {
  }

  /** Some part of the text is not blank, and every such part names one of the three roles. */
  ghost predicate NamesRoles(tx: Text, parts: seq<string>) {
    && (exists k :: 0 <= k < |parts| && tx.strip(parts[k]) != "")
    && forall k :: 0 <= k < |parts| && tx.strip(parts[k]) != "" ==>
         || Names(tx, parts[k], "admin") || Names(tx, parts[k], "analyst") || Names(tx, parts[k], "viewer")
  }

  lemma {:induction false} AcceptedParts(tx: Text, parts: seq<string>)
    ensures Normalize(tx, parts) != [] <==> exists k :: 0 <= k < |parts| && tx.strip(parts[k]) != ""
    ensures (forall r | r in Normalize(tx, parts) :: r in ROLES) <==>
            forall k :: 0 <= k < |parts| && tx.strip(parts[k]) != "" ==> tx.lower(tx.strip(parts[k])) in ROLES
  {
    if parts != [] {
      var rest := parts[1..];
      AcceptedParts(tx, rest);
      assert forall k :: 1 <= k < |parts| ==> parts[k] == rest[k - 1];
      assert Normalize(tx, parts) == OneRole(tx, parts[0]) + Normalize(tx, rest);
    }
  }

  /** Ingestion accepts exactly the texts whose parts name roles. */
  lemma AcceptedText(tx: Text, parts: seq<string>)
    requires parts != [] && forall p :: p in parts ==> NoComma(p)
    ensures Accepted(RolesList(tx, Join(parts))) <==> NamesRoles(tx, parts)
  {
    SplitJoin(parts);
    AcceptedParts(tx, parts);
  }

  /**
   Visibility agreement: for every `allowed_roles` text that ingestion accepts, given by its parts between commas,
   and every role of a token, the document is listed exactly when its vectors pass the search filter, and both mean
   that the role is admin or that some part of the text, stripped and in lower case, is the role.
   */
  lemma VisibilityAgreement(tx: Text, parts: seq<string>, role: string)
    requires parts != [] && forall p :: p in parts ==> NoComma(p)
    requires KeepsRoles(tx) && TokenRole(role) && Accepted(RolesList(tx, Join(parts)))
    ensures var roles := RolesList(tx, Join(parts));
            && (SqlLists(tx, role, Join(roles)) <==> SearchPasses(role, roles))
            && (SearchPasses(role, roles) <==> role == "admin" || SomeNames(tx, parts, role))
  {
    var roles := RolesList(tx, Join(parts));
    RolesOfText(tx, parts);
    assert roles[0] in ROLES;
    SqlMeansMember(roles, role);
  }
}
