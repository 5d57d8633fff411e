/** Who may see a memory, and how a derived memory's policy is computed from its parents'. */
module Policy {
  import opened Common

  type Role = string

  datatype Classification = Public | Internal | Confidential | Restricted {
    function Rank(): nat {
      match this case Public => 0 case Internal => 1 case Confidential => 2 case Restricted => 3
    }
  }

  datatype Visibility = Private | TenantWide | Shared

  /** The policy columns of a row. Role lists are sets: order and repetition never matter to a gate. */
  datatype Policy = Policy(
    visibility: Visibility, classification: Classification, pii: bool,
    roles: set<Role>, roleGroups: set<set<Role>>, attrs: seq<(string, string)>)

  datatype Principal = Principal(
    id: string, tenant: string, roles: set<Role>, attrs: seq<(string, string)>, clearance: Classification)

  /** What the enforcer reads of a row. */
  datatype Gated = Gated(tenant: string, createdBy: string, policy: Policy)

  datatype Denial = CrossTenant | AboveClearance | RoleGate | Attribute(key: string) | PrivateRow

  /** The conjunctive gates of a policy: some role of every gate is needed. */
  function Gates(p: Policy): set<set<Role>> {
    (if p.roles == {} then {} else {p.roles}) + (set g | g in p.roleGroups && g != {})
  }

  /** The value a principal holds for an attribute; the last entry of a key wins. */
  function AttrOf(attrs: seq<(string, string)>, key: string): Option<string> {
    if attrs == [] then None
    else if attrs[|attrs| - 1].0 == key then Some(attrs[|attrs| - 1].1)
    else AttrOf(attrs[..|attrs| - 1], key)
  }

  predicate PassesGates(principal: Principal, p: Policy) {
    forall g :: g in Gates(p) ==> principal.roles * g != {}
  }

  function FirstMissingAttr(principal: Principal, attrs: seq<(string, string)>): Option<string> {
    if attrs == [] then None
    else if AttrOf(principal.attrs, attrs[0].0) != Some(attrs[0].1) then Some(attrs[0].0)
    else FirstMissingAttr(principal, attrs[1..])
  }

  /** The enforcer's decision: None when the row is visible, else its first reason to deny. */
  function Decide(principal: Principal, row: Gated): Option<Denial> {
    if row.tenant != principal.tenant then Some(CrossTenant)
    else if row.policy.classification.Rank() > principal.clearance.Rank() then Some(AboveClearance)
    else if !PassesGates(principal, row.policy) then Some(RoleGate)
    else
      var missing := FirstMissingAttr(principal, row.policy.attrs);
      if missing.Some? then Some(Attribute(missing.value))
      else if row.policy.visibility.Private? && row.createdBy != principal.id then Some(PrivateRow)
      else None
  }

  predicate Visible(principal: Principal, row: Gated) {
    Decide(principal, row).None?
  }

  /** What parents hand down: the classification and every role gate. */
  predicate Cleared(principal: Principal, p: Policy) {
    p.classification.Rank() <= principal.clearance.Rank() && PassesGates(principal, p)
  }

  /** A row is visible exactly when every gate of the policy is met. */
  lemma {:induction false} VisibleMeans(principal: Principal, row: Gated)
    ensures Visible(principal, row) <==>
      && row.tenant == principal.tenant && Cleared(principal, row.policy)
      && (forall i :: 0 <= i < |row.policy.attrs| ==>
            AttrOf(principal.attrs, row.policy.attrs[i].0) == Some(row.policy.attrs[i].1))
      && (row.policy.visibility.Private? ==> row.createdBy == principal.id)
  {
    NoMissingAttr(principal, row.policy.attrs);
  }

  /** The principal holds one of the roles, if there are any. */
  ghost predicate HoldsOneOf(principal: Principal, roles: set<Role>) {
    roles == {} || exists r :: r in roles && r in principal.roles
  }

  /** Clearance is a rank no lower than the row's, one of its roles, and one of every group. */
  lemma ClearedMeans(principal: Principal, p: Policy)
    ensures Cleared(principal, p) <==>
      && !Outranks(p.classification, principal.clearance)
      && HoldsOneOf(principal, p.roles) && (forall g :: g in p.roleGroups ==> HoldsOneOf(principal, g))
  {
    forall g | g in p.roleGroups || g == p.roles ensures HoldsOneOf(principal, g) <==> g == {} || principal.roles * g != {} {
      if r :| r in g && r in principal.roles { assert r in principal.roles * g; }
      if principal.roles * g != {} { var r :| r in principal.roles * g; }
    }
  }

  /** Public, internal, confidential, restricted: each outranks those before it. */
  predicate Outranks(a: Classification, b: Classification) {
    match b
    case Public => !a.Public?
    case Internal => a.Confidential? || a.Restricted?
    case Confidential => a.Restricted?
    case Restricted => false
  }

  /** Entry `i` gives the key this value, and no later one gives it any. */
  ghost predicate LastWith(attrs: seq<(string, string)>, i: nat, key: string, value: string)
    requires i < |attrs|
  {
    attrs[i] == (key, value) && forall j :: i < j < |attrs| ==> attrs[j].0 != key
  }

  /** The last value given for a key counts. */
  lemma {:induction false} LastAttrCounts(attrs: seq<(string, string)>, key: string, value: string)
    ensures AttrOf(attrs, key) == Some(value) <==>
      exists i :: 0 <= i < |attrs| && LastWith(attrs, i, key, value)
  {
    if attrs != [] {
      var init, n := attrs[..|attrs| - 1], |attrs| - 1;
      LastAttrCounts(init, key, value);
      if attrs[n].0 == key {
        assert AttrOf(attrs, key) == Some(attrs[n].1);
        if attrs[n].1 == value { assert LastWith(attrs, n, key, value); }
      } else {
        if i :| 0 <= i < n && LastWith(init, i, key, value) { assert LastWith(attrs, i, key, value); }
        if i :| 0 <= i < |attrs| && LastWith(attrs, i, key, value) {
          assert i < n && init[i] == attrs[i];
          assert LastWith(init, i, key, value);
        }
      }
    }
  }

  /** The reason given is the first check that fails: tenant, clearance, roles, attributes in their
      order, ownership. */
  lemma {:induction false} DenialMeans(principal: Principal, row: Gated)
    ensures var d := Decide(principal, row);
      && (d == Some(CrossTenant) <==> row.tenant != principal.tenant)
      && (d == Some(AboveClearance) <==>
            row.tenant == principal.tenant && Outranks(row.policy.classification, principal.clearance))
      && (d == Some(RoleGate) <==>
            && row.tenant == principal.tenant && !Outranks(row.policy.classification, principal.clearance)
            && !(HoldsOneOf(principal, row.policy.roles) && forall g :: g in row.policy.roleGroups ==> HoldsOneOf(principal, g)))
      && (d == Some(PrivateRow) <==>
            && row.tenant == principal.tenant && Cleared(principal, row.policy)
            && (forall i :: 0 <= i < |row.policy.attrs| ==>
                  AttrOf(principal.attrs, row.policy.attrs[i].0) == Some(row.policy.attrs[i].1))
            && row.policy.visibility.Private? && row.createdBy != principal.id)
  {
    NoMissingAttr(principal, row.policy.attrs);
    ClearedMeans(principal, row.policy);
  }

  /** An attribute is named exactly when it is the first one the principal does not match. */
  lemma AttributeDenialMeans(principal: Principal, row: Gated, key: string)
    ensures Decide(principal, row) == Some(Attribute(key)) <==>
      && row.tenant == principal.tenant && Cleared(principal, row.policy)
      && exists i :: 0 <= i < |row.policy.attrs| && FirstUnmet(principal, row.policy.attrs, i) && row.policy.attrs[i].0 == key
  {
    FirstMissingMeans(principal, row.policy.attrs, key);
  }

  ghost predicate FirstUnmet(principal: Principal, attrs: seq<(string, string)>, i: nat)
    requires i < |attrs|
  {
    && AttrOf(principal.attrs, attrs[i].0) != Some(attrs[i].1)
    && forall j :: 0 <= j < i ==> AttrOf(principal.attrs, attrs[j].0) == Some(attrs[j].1)
  }

  lemma {:induction false} FirstMissingMeans(principal: Principal, attrs: seq<(string, string)>, key: string)
    ensures FirstMissingAttr(principal, attrs) == Some(key) <==>
      exists i :: 0 <= i < |attrs| && FirstUnmet(principal, attrs, i) && attrs[i].0 == key
  {
    if attrs != [] {
      var rest := attrs[1..];
      FirstMissingMeans(principal, rest, key);
      if AttrOf(principal.attrs, attrs[0].0) != Some(attrs[0].1) {
        assert FirstUnmet(principal, attrs, 0);
      } else {
        if i :| 0 <= i < |rest| && FirstUnmet(principal, rest, i) && rest[i].0 == key {
          assert FirstUnmet(principal, attrs, i + 1);
        }
        if i :| 0 <= i < |attrs| && FirstUnmet(principal, attrs, i) && attrs[i].0 == key {
          assert i > 0 && rest[i - 1] == attrs[i];
          assert forall j :: 0 <= j < i - 1 ==> rest[j] == attrs[j + 1];
          assert FirstUnmet(principal, rest, i - 1);
        }
      }
    }
  }

  lemma {:induction false} NoMissingAttr(principal: Principal, attrs: seq<(string, string)>)
    ensures FirstMissingAttr(principal, attrs).None? <==>
      forall i :: 0 <= i < |attrs| ==> AttrOf(principal.attrs, attrs[i].0) == Some(attrs[i].1)
  {
    if attrs != [] { NoMissingAttr(principal, attrs[1..]); }
  }

  function MayShowAs<R(!new)>(principal: Principal, gated: R -> Gated): R -> bool {
    (r: R) => Visible(principal, gated(r))
  }

  /** The denied rows in order, each with the enforcer's reason. */
  function DeniedOf<R(!new)>(principal: Principal, rows: seq<R>, gated: R -> Gated): seq<(R, Denial)> {
    if rows == [] then []
    else
      var last := rows[|rows| - 1];
      var reason := Decide(principal, gated(last));
      DeniedOf(principal, rows[..|rows| - 1], gated) + if reason.Some? then [(last, reason.value)] else []
  }

  /** Splits rows into the visible ones and the denied ones, both in order. */
  method AllowedView<R(!new)>(principal: Principal, rows: seq<R>, gated: R -> Gated)
    returns (visible: seq<R>, denied: seq<(R, Denial)>)
    ensures visible == Filter(rows, MayShowAs(principal, gated))
    ensures denied == DeniedOf(principal, rows, gated)
  {
    visible, denied := [], [];
    for i := 0 to |rows|
      invariant visible == Filter(rows[..i], MayShowAs(principal, gated))
      invariant denied == DeniedOf(principal, rows[..i], gated)
    {
      ShowNext(principal, rows, gated, i);
      var reason := Decide(principal, gated(rows[i]));
      if reason.None? {
        visible := visible + [rows[i]];
      } else {
        denied := denied + [(rows[i], reason.value)];
      }
    }
    assert rows[..|rows|] == rows;
  }

  lemma ShowNext<R(!new)>(principal: Principal, rows: seq<R>, gated: R -> Gated, i: nat)
    requires i < |rows|
    ensures Filter(rows[..i + 1], MayShowAs(principal, gated)) ==
      Filter(rows[..i], MayShowAs(principal, gated)) + (if Visible(principal, gated(rows[i])) then [rows[i]] else [])
    ensures rows[..i + 1][..i] == rows[..i]
  {
    assert rows[..i + 1] == rows[..i] + [rows[i]];
    FilterAppend(rows[..i], [rows[i]], MayShowAs(principal, gated));
  }

  /** The denied list names exactly the rows that are not visible, with their reasons. */
  lemma {:induction false} DeniedMeans<R(!new)>(principal: Principal, rows: seq<R>, gated: R -> Gated)
    ensures forall r, reason :: (r, reason) in DeniedOf(principal, rows, gated) <==>
      r in rows && Decide(principal, gated(r)) == Some(reason)
  {
    if rows != [] {
      var before, last := rows[..|rows| - 1], rows[|rows| - 1];
      DeniedMeans(principal, before, gated);
      DeniedLast(principal, before, last, gated);
      assert rows == before + [last];
    }
  }

  /** Every row is shown or denied, once. */
  lemma {:induction false} ShownOrDenied<R(!new)>(principal: Principal, rows: seq<R>, gated: R -> Gated)
    ensures |Filter(rows, MayShowAs(principal, gated))| + |DeniedOf(principal, rows, gated)| == |rows|
  {
    if rows != [] {
      ShownOrDenied(principal, rows[..|rows| - 1], gated);
      ShowNext(principal, rows, gated, |rows| - 1);
      assert rows[..|rows| - 1 + 1] == rows;
    }
  }

  lemma DeniedLast<R(!new)>(principal: Principal, before: seq<R>, last: R, gated: R -> Gated)
    ensures var d := DeniedOf(principal, before + [last], gated);
      forall r, reason :: (r, reason) in d <==>
        (r, reason) in DeniedOf(principal, before, gated) || (r == last && Decide(principal, gated(last)) == Some(reason))
  {
    assert (before + [last])[..|before|] == before;
  }

  // -- Inheritance --------------------------------------------------------------------

  /** The high-water mark collected while the parents are read, one at a time. */
  datatype Mark = Mark(classification: Classification, pii: bool, gates: set<set<Role>>)

  function StartMark(own: Policy): Mark {
    Mark(own.classification, own.pii, Gates(own))
  }

  function Raise(mark: Mark, parent: Policy): Mark {
    Mark(
      if parent.classification.Rank() > mark.classification.Rank() then parent.classification else mark.classification,
      mark.pii || parent.pii,
      mark.gates + Gates(parent))
  }

  /** All gates collected become conjunctive groups of the derived policy. */
  function Marked(own: Policy, mark: Mark): Policy {
    own.(classification := mark.classification, pii := mark.pii, roles := {}, roleGroups := mark.gates)
  }

  predicate MarkCovers(mark: Mark, p: Policy) {
    && p.classification.Rank() <= mark.classification.Rank()
    && (p.pii ==> mark.pii) && Gates(p) <= mark.gates
  }

  /** A policy at least as strict as another in classification, pii and role gates. */
  predicate Dominates(child: Policy, parent: Policy) {
    && parent.classification.Rank() <= child.classification.Rank()
    && (parent.pii ==> child.pii) && Gates(parent) <= Gates(child)
  }

  predicate CleanMark(mark: Mark) {
    {} !in mark.gates
  }

  lemma RaiseOnlyUp(mark: Mark, parent: Policy)
    requires CleanMark(mark)
    ensures CleanMark(Raise(mark, parent)) && MarkCovers(Raise(mark, parent), parent)
    ensures forall p :: MarkCovers(mark, p) ==> MarkCovers(Raise(mark, parent), p)
  {
  }

  /** The derived policy dominates its own request and everything its mark covers. */
  lemma MarkedDominates(own: Policy, mark: Mark)
    requires CleanMark(mark)
    ensures forall p :: MarkCovers(mark, p) ==> Dominates(Marked(own, mark), p)
  {
    assert Gates(Marked(own, mark)) == mark.gates;
  }

  /** Who passes the stricter policy passes the weaker one. */
  lemma DominatesClears(principal: Principal, child: Policy, parent: Policy)
    requires Dominates(child, parent) && Cleared(principal, child)
    ensures Cleared(principal, parent)
  {
  }
}
