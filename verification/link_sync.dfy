/** The two link tables (UserRoles, RolePermissions) hold (owner, target)
    pairs under a unique index. The role and user services rewrite the
    links of one owner from a list of requested target ids in two loops:

    - the first removes every current link whose target is not listed;
    - the second inserts a link for each listed id that was not linked
      before the call and names a visible target.

    The second loop compares against the links as they were before the call,
    so a listed id that occurs twice is inserted twice. SaveChanges then
    hits the unique index. This module states what the loops compute and
    exactly when that happens.
 */
module LinkSync {
  import opened Common

  /** The targets linked to `owner`. */
  function Targets(links: set<(Id, Id)>, owner: Id): (r: set<Id>)
    ensures forall x :: x in r <==> (owner, x) in links
  {
    set l | l in links && l.0 == owner :: l.1
  }

  /** The ids the insert loop adds, in list order and once per occurrence. */
  function Inserted(ids: seq<Id>, current: set<Id>, valid: set<Id>): (r: seq<Id>)
    ensures forall x :: x in r <==> x in ids && x !in current && x in valid
    decreases |ids|
  {
    if ids == [] then []
    else
      var rest := Inserted(ids[1..], current, valid);
      assert forall x :: x in ids <==> x == ids[0] || x in ids[1..];
      if ids[0] !in current && ids[0] in valid then [ids[0]] + rest else rest
  }

  predicate Distinct(s: seq<Id>) {
    forall i, j :: 0 <= i < j < |s| ==> s[i] != s[j]
  }

  /** Some id the insert loop would add occurs twice in the list. */
  predicate RepeatsAnInsert(ids: seq<Id>, current: set<Id>, valid: set<Id>) {
    exists i, j :: 0 <= i < j < |ids| && ids[i] == ids[j] && ids[i] !in current && ids[i] in valid
  }

  /** The insert loop adds some pair twice exactly when an id it adds is
      listed twice. */
  lemma {:induction false} InsertsRepeatIff(ids: seq<Id>, current: set<Id>, valid: set<Id>)
    ensures !Distinct(Inserted(ids, current, valid)) <==> RepeatsAnInsert(ids, current, valid)
    decreases |ids|
  {
    if ids != [] {
      var x, tail := ids[0], ids[1..];
      var rest := Inserted(tail, current, valid);
      InsertsRepeatIff(tail, current, valid);
      assert RepeatsAnInsert(tail, current, valid) ==> RepeatsAnInsert(ids, current, valid) by {
        if RepeatsAnInsert(tail, current, valid) {
          var i, j :| 0 <= i < j < |tail| && tail[i] == tail[j] && tail[i] !in current && tail[i] in valid;
          assert ids[i + 1] == ids[j + 1];
        }
      }
      if x !in current && x in valid {
        assert Inserted(ids, current, valid) == [x] + rest;
        DistinctCons(x, rest);
        if x in tail {
          var j :| 0 <= j < |tail| && tail[j] == x;
          assert ids[0] == ids[j + 1];
        }
        assert RepeatsAnInsert(ids, current, valid) ==> RepeatsAnInsert(tail, current, valid) || x in tail by {
          if RepeatsAnInsert(ids, current, valid) {
            var i, j :| 0 <= i < j < |ids| && ids[i] == ids[j] && ids[i] !in current && ids[i] in valid;
            if i == 0 {
              assert tail[j - 1] == x;
            } else {
              assert tail[i - 1] == tail[j - 1];
            }
          }
        }
      } else {
        assert Inserted(ids, current, valid) == rest;
        assert RepeatsAnInsert(ids, current, valid) ==> RepeatsAnInsert(tail, current, valid) by {
          if RepeatsAnInsert(ids, current, valid) {
            var i, j :| 0 <= i < j < |ids| && ids[i] == ids[j] && ids[i] !in current && ids[i] in valid;
            assert i != 0;
            assert tail[i - 1] == tail[j - 1];
          }
        }
      }
    }
  }

  lemma DistinctCons(x: Id, s: seq<Id>)
    ensures Distinct([x] + s) <==> x !in s && Distinct(s)
  {
    var t := [x] + s;
    if Distinct(t) {
      forall i, j | 0 <= i < j < |s| ensures s[i] != s[j] {
        assert t[i + 1] == s[i] && t[j + 1] == s[j];
      }
      forall j | 0 <= j < |s| ensures s[j] != x {
        assert t[0] == x && t[j + 1] == s[j];
        assert t[0] != t[j + 1];
      }
    }
    if x !in s && Distinct(s) {
      forall i, j | 0 <= i < j < |t| ensures t[i] != t[j] {
        if i == 0 {
          assert t[j] == s[j - 1];
        } else {
          assert t[i] == s[i - 1] && t[j] == s[j - 1];
        }
      }
    }
  }

  /** The targets after both loops: the current ones that are listed, and
      the inserted ones. */
  function SyncedTargets(current: set<Id>, ids: seq<Id>, valid: set<Id>): (r: set<Id>)
    ensures forall x :: x in r <==> x in ids && (x in current || x in valid)
  {
    var inserted := Inserted(ids, current, valid);
    (set x | x in current && x in ids) + (set x | x in inserted)
  }

  /** The links with `owner`'s replaced by links to `targets`. */
  function Relinked(links: set<(Id, Id)>, owner: Id, targets: set<Id>): (r: set<(Id, Id)>)
    ensures Targets(r, owner) == targets
    ensures forall o, x :: o != owner ==> ((o, x) in r <==> (o, x) in links)
  {
    var others := set l | l in links && l.0 != owner;
    var mine := set x | x in targets :: (owner, x);
    assert forall x :: (owner, x) in others + mine <==> x in targets;
    others + mine
  }

  /** The effect of the two loops on the table: the rewritten links, or
      None when SaveChanges fails on the unique index. */
  function SyncAsWritten(links: set<(Id, Id)>, owner: Id, ids: seq<Id>, valid: set<Id>): (r: Option<set<(Id, Id)>>)
    ensures r.None? <==> RepeatsAnInsert(ids, Targets(links, owner), valid)
    ensures r.Some? ==> r.value == Relinked(links, owner, SyncedTargets(Targets(links, owner), ids, valid))
  {
    var current := Targets(links, owner);
    InsertsRepeatIff(ids, current, valid);
    if !Distinct(Inserted(ids, current, valid)) then None
    else Some(Relinked(links, owner, SyncedTargets(current, ids, valid)))
  }

  /** The same rewrite with the list read as a set, so a repeated id is
      inserted once. */
  function Sync(links: set<(Id, Id)>, owner: Id, ids: seq<Id>, valid: set<Id>): (r: set<(Id, Id)>)
    ensures Targets(r, owner) == set x | x in ids && ((owner, x) in links || x in valid)
    ensures forall o, x :: o != owner ==> ((o, x) in r <==> (o, x) in links)
  {
    Relinked(links, owner, SyncedTargets(Targets(links, owner), ids, valid))
  }

  /** Whenever the loops as written succeed they agree with the set
      reading; they fail exactly on a repeated id that gets inserted. */
  lemma SyncAsWrittenAgreesUnlessRepeated(links: set<(Id, Id)>, owner: Id, ids: seq<Id>, valid: set<Id>)
    ensures SyncAsWritten(links, owner, ids, valid).Some? ==>
              SyncAsWritten(links, owner, ids, valid).value == Sync(links, owner, ids, valid)
    ensures Distinct(ids) ==> SyncAsWritten(links, owner, ids, valid) == Some(Sync(links, owner, ids, valid))
  {
  }

  /** Listing a new valid target twice makes the loops as written fail. */
  lemma RepeatedNewTargetFails(links: set<(Id, Id)>, owner: Id, x: Id, valid: set<Id>)
    requires (owner, x) !in links && x in valid
    ensures SyncAsWritten(links, owner, [x, x], valid).None?
    ensures (owner, x) in Sync(links, owner, [x, x], valid)
  {
    var ids := [x, x];
    assert ids[0] == ids[1];
  }
}
