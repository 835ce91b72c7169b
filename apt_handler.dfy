/**
  APT bookkeeping: the reason a package changes, the check of a relationship
  list against the package cache, and the record of the changes reported to
  the user and of the packages the user chose to keep.

  Packages are values holding the versions and marks apt reports for them.
  Version comparison (`apt_pkg.check_dep`) is a parameter.
 */
module AptHandler {
  import opened Wrappers
  import opened Lists

  /** A package as apt reports it: id, name, installed and candidate versions, and its marks. */
  datatype Package = Package(id: int, name: string, installed: Option<string>, candidate: Option<string>,
                             markedDelete: bool, markedDowngrade: bool, markedInstall: bool,
                             markedUpgrade: bool, markedKeep: bool)

  /** The reasons `get_reason` reports. */
  datatype Reason = Remove | Downgrade | Install | Upgrade

  /** The order in which `get_reason` tests the marks: a lower number wins. */
  function Priority(r: Reason): nat
  {
    match r
    case Remove => 0
    case Downgrade => 1
    case Install => 2
    case Upgrade => 3
  }

  /** The mark behind each reason is set on the package. */
  predicate Marked(p: Package, r: Reason)
  {
    match r
    case Remove => p.markedDelete
    case Downgrade => p.markedDowngrade
    case Install => p.markedInstall
    case Upgrade => p.markedUpgrade
  }

  /** `get_reason`: the reason of highest priority whose mark is set, or None when no mark is set. */
  function GetReason(p: Package): (r: Option<Reason>)
    ensures r.Some? ==> Marked(p, r.value) && forall q :: Marked(p, q) ==> Priority(r.value) <= Priority(q)
    ensures r.None? <==> forall q :: !Marked(p, q)
  {
    if p.markedDelete then Some(Remove)
    else if p.markedDowngrade then Some(Downgrade)
    else if p.markedInstall then Some(Install)
    else if p.markedUpgrade then Some(Upgrade)
    else None
  }

  /** A set mark that no other set mark outranks is the reason reported. */
  lemma HighestMarkIsReason(p: Package, r: Reason)
    requires Marked(p, r) && forall q :: Marked(p, q) ==> Priority(r) <= Priority(q)
    ensures GetReason(p) == Some(r)
  {
    var g := GetReason(p).value;
    assert Priority(g) <= Priority(r) && Priority(r) <= Priority(g);
  }

  /** One alternative of a relationship: package name, required version and operator. */
  datatype Alternative = Alternative(name: string, version: string, op: string)

  /** `apt_pkg.check_dep(version, operator, required)`. */
  type CheckDep = (string, string, string) -> bool

  /** The version compared for a cached package: the installed one, else the candidate when the
      package is marked for installation, upgrade or downgrade; None when it has neither. */
  function CurrentVersion(p: Package): (v: Option<string>)
    ensures v.Some? ==> v == p.installed || v == p.candidate
    ensures p.installed.Some? ==> v == p.installed
  {
    if p.installed.Some? then p.installed
    else if p.markedInstall || p.markedUpgrade || p.markedDowngrade then p.candidate
    else None
  }

  /** The alternative's package is in the cache, has a version to compare, and that version is accepted. */
  predicate AlternativeHolds(cache: map<string, Package>, a: Alternative, checkDep: CheckDep)
  {
    a.name in cache && CurrentVersion(cache[a.name]).Some?
    && checkDep(CurrentVersion(cache[a.name]).value, a.op, a.version)
  }

  /** A group of alternatives holds when one of them does. */
  predicate GroupHolds(cache: map<string, Package>, group: seq<Alternative>, checkDep: CheckDep)
  {
    exists i :: 0 <= i < |group| && AlternativeHolds(cache, group[i], checkDep)
  }

  /** `check_relationship`: true at the first alternative that holds; false when none does, so an
      empty group is false. Each alternative is judged by its own package's version. */
  method CheckRelationship(cache: map<string, Package>, group: seq<Alternative>, checkDep: CheckDep) returns (r: bool)
    ensures r <==> GroupHolds(cache, group, checkDep)
  {
    for i := 0 to |group|
      invariant forall j :: 0 <= j < i ==> !AlternativeHolds(cache, group[j], checkDep)
    {
      var a := group[i];
      if a.name in cache {
        var version := CurrentVersion(cache[a.name]);
        if version.Some? && checkDep(version.value, a.op, a.version) {
          return true;
        }
      }
    }
    return false;
  }

  /** `check_relationships`: false at the first group that does not hold, true otherwise, so an
      empty list is true. */
  method CheckRelationships(cache: map<string, Package>, groups: seq<seq<Alternative>>, checkDep: CheckDep)
    returns (r: bool)
    ensures r <==> forall i :: 0 <= i < |groups| ==> GroupHolds(cache, groups[i], checkDep)
  {
    for i := 0 to |groups|
      invariant forall j :: 0 <= j < i ==> GroupHolds(cache, groups[j], checkDep)
    {
      var holds := CheckRelationship(cache, groups[i], checkDep);
      if !holds {
        return false;
      }
    }
    return true;
  }

  /** How the loop as written fails: `version` read before it was ever bound, or bound to the
      missing candidate of a marked package. */
  datatype Failure = UnboundVersion | NoCandidate

  /** The loop of `check_relationship` as written, from the first alternative of `group` on, with
      `version` as earlier rounds left it (None while unbound). A cached package that is neither
      installed nor marked leaves `version` as it was, so it is judged by an earlier package's version. */
  function CheckRelationshipAsWritten(cache: map<string, Package>, group: seq<Alternative>, checkDep: CheckDep,
                                      version: Option<Option<string>>): Result<bool, Failure>
    decreases |group|
  {
    if group == [] then Ok(false)
    else
      var a := group[0];
      if a.name !in cache then CheckRelationshipAsWritten(cache, group[1..], checkDep, version)
      else
        var p := cache[a.name];
        var v := if p.installed.Some? then Some(p.installed)
                 else if p.markedInstall || p.markedUpgrade || p.markedDowngrade then Some(p.candidate)
                 else version;
        if v.None? then Err(UnboundVersion)
        else if v.value.None? then Err(NoCandidate)
        else if checkDep(v.value.value, a.op, a.version) then Ok(true)
        else CheckRelationshipAsWritten(cache, group[1..], checkDep, v)
  }

  /** Every cached package of the group has a version of its own to compare. */
  predicate OwnVersions(cache: map<string, Package>, group: seq<Alternative>)
  {
    forall i :: 0 <= i < |group| && group[i].name in cache ==> CurrentVersion(cache[group[i].name]).Some?
  }

  /** Where every cached package has a version of its own, the loop as written agrees with
      `CheckRelationship`, whatever `version` held before. */
  lemma {:induction false} AsWrittenAgreesWithOwnVersions(cache: map<string, Package>, group: seq<Alternative>,
                                                          checkDep: CheckDep, version: Option<Option<string>>)
    requires OwnVersions(cache, group)
    ensures CheckRelationshipAsWritten(cache, group, checkDep, version) == Ok(GroupHolds(cache, group, checkDep))
    decreases |group|
  {
    if group != [] {
      var rest := group[1..];
      assert OwnVersions(cache, rest) by {
        forall i | 0 <= i < |rest| && rest[i].name in cache
          ensures CurrentVersion(cache[rest[i].name]).Some?
        {
          assert rest[i] == group[i + 1];
        }
      }
      var a := group[0];
      if a.name in cache {
        var v := CurrentVersion(cache[a.name]);
        assert v.Some?;
        AsWrittenAgreesWithOwnVersions(cache, rest, checkDep, Some(v));
      } else {
        AsWrittenAgreesWithOwnVersions(cache, rest, checkDep, version);
      }
      if GroupHolds(cache, group, checkDep) && !AlternativeHolds(cache, a, checkDep) {
        var i :| 0 <= i < |group| && AlternativeHolds(cache, group[i], checkDep);
        assert rest[i - 1] == group[i];
      }
      if GroupHolds(cache, rest, checkDep) {
        var i :| 0 <= i < |rest| && AlternativeHolds(cache, rest[i], checkDep);
        assert group[i + 1] == rest[i];
      }
    }
  }

  /** A check that accepts any version when no operator is given, as `apt_pkg.check_dep` does. */
  function AnyVersionWithoutOperator(): CheckDep
  {
    (v: string, op: string, required: string) => op == ""
  }

  /** `a (>= 2.0) | b`, with `a` 1.0 installed and `b` in the cache but neither installed nor marked:
      the loop as written compares `b` with `a`'s version and accepts the group, though neither
      alternative is there. */
  lemma StaleVersionAccepted()
    ensures var a := Package(1, "a", Some("1.0"), Some("1.0"), false, false, false, false, false);
      var b := Package(2, "b", None, Some("3.0"), false, false, false, false, false);
      var cache := map["a" := a, "b" := b];
      var group := [Alternative("a", "2.0", ">="), Alternative("b", "", "")];
      && CheckRelationshipAsWritten(cache, group, AnyVersionWithoutOperator(), None) == Ok(true)
      && !GroupHolds(cache, group, AnyVersionWithoutOperator())
  {
    var a := Package(1, "a", Some("1.0"), Some("1.0"), false, false, false, false, false);
    var b := Package(2, "b", None, Some("3.0"), false, false, false, false, false);
    var cache := map["a" := a, "b" := b];
    var group := [Alternative("a", "2.0", ">="), Alternative("b", "", "")];
    var check := AnyVersionWithoutOperator();
    assert group[1..] == [Alternative("b", "", "")];
    assert group[1..][1..] == [];
    assert !AlternativeHolds(cache, group[0], check);
    assert !AlternativeHolds(cache, group[1], check);
  }

  /** A group whose first cached package is neither installed nor marked reads `version` unbound. */
  lemma UnboundVersionRaises()
    ensures var b := Package(2, "b", None, Some("3.0"), false, false, false, false, false);
      CheckRelationshipAsWritten(map["b" := b], [Alternative("b", "", "")], AnyVersionWithoutOperator(), None)
        == Err(UnboundVersion)
  {
  }

  /** `check_relationships` over the loop as written: every group starts with `version` unbound,
      and the first group that does not hold, or raises, decides. */
  function CheckRelationshipsAsWritten(cache: map<string, Package>, groups: seq<seq<Alternative>>,
                                       checkDep: CheckDep): Result<bool, Failure>
    decreases |groups|
  {
    if groups == [] then Ok(true)
    else
      match CheckRelationshipAsWritten(cache, groups[0], checkDep, None)
      case Err(f) => Err(f)
      case Ok(holds) => if !holds then Ok(false) else CheckRelationshipsAsWritten(cache, groups[1..], checkDep)
  }

  /** Where every cached package of every group has a version of its own, the list check as
      written agrees with `CheckRelationships`. */
  lemma {:induction false} RelationshipsAsWrittenAgree(cache: map<string, Package>, groups: seq<seq<Alternative>>,
                                                       checkDep: CheckDep)
    requires forall i :: 0 <= i < |groups| ==> OwnVersions(cache, groups[i])
    ensures CheckRelationshipsAsWritten(cache, groups, checkDep)
         == Ok(forall i :: 0 <= i < |groups| ==> GroupHolds(cache, groups[i], checkDep))
    decreases |groups|
  {
    if groups != [] {
      var rest := groups[1..];
      AsWrittenAgreesWithOwnVersions(cache, groups[0], checkDep, None);
      assert forall i :: 0 <= i < |rest| ==> rest[i] == groups[i + 1];
      RelationshipsAsWrittenAgree(cache, rest, checkDep);
      if forall i :: 0 <= i < |rest| ==> GroupHolds(cache, rest[i], checkDep) {
        if GroupHolds(cache, groups[0], checkDep) {
          forall i | 0 <= i < |groups| ensures GroupHolds(cache, groups[i], checkDep) {
            if i > 0 {
              assert groups[i] == rest[i - 1];
            }
          }
        }
      }
    }
  }

  /** The stale version decides the whole list: `[[a (>= 2.0), b]]`, with `a` 1.0 installed and
      `b` neither installed nor marked, is accepted as written though its only group does not hold. */
  lemma StaleVersionAcceptsList()
    ensures var a := Package(1, "a", Some("1.0"), Some("1.0"), false, false, false, false, false);
      var b := Package(2, "b", None, Some("3.0"), false, false, false, false, false);
      var cache := map["a" := a, "b" := b];
      var group := [Alternative("a", "2.0", ">="), Alternative("b", "", "")];
      && CheckRelationshipsAsWritten(cache, [group], AnyVersionWithoutOperator()) == Ok(true)
      && !GroupHolds(cache, group, AnyVersionWithoutOperator())
  {
    StaleVersionAccepted();
    var group := [Alternative("a", "2.0", ">="), Alternative("b", "", "")];
    assert [group][1..] == [];
  }

  /** No two positions of the list hold the same id. */
  predicate Distinct(s: seq<int>)
  {
    forall i, j :: 0 <= i < j < |s| ==> s[i] != s[j]
  }

  /** What `get_changes` saves for an id: the package and its reason when first seen. */
  datatype Saved = Saved(pkg: Package, reason: Option<Reason>)

  /** `id_with_packages`: the saved entries by id, with the order in which the ids were inserted. */
  datatype Record = Record(saved: map<int, Saved>, order: seq<int>)

  /** The insertion order lists every saved id once. */
  predicate RecordValid(rec: Record)
  {
    Distinct(rec.order) && (forall id :: id in rec.saved ==> id in rec.order)
    && (forall id :: id in rec.order ==> id in rec.saved)
  }

  /** `get_changes` reports a package that has a reason or is kept by the user, and has a candidate. */
  predicate Reported(p: Package, kept: seq<int>)
  {
    (GetReason(p).Some? || p.id in kept) && p.candidate.Some?
  }

  /** Saving a package: an id already saved keeps its entry; a new one is saved with the package's
      reason and goes last in the order. */
  function Save(rec: Record, p: Package): (r: Record)
    ensures RecordValid(rec) ==> RecordValid(r)
    ensures r.saved.Keys == rec.saved.Keys + {p.id}
    ensures forall id :: id in rec.saved ==> r.saved[id] == rec.saved[id]
  {
    if p.id in rec.saved then rec
    else
      var r := Record(rec.saved[p.id := Saved(p, GetReason(p))], rec.order + [p.id]);
      assert forall id :: id in r.order <==> id in rec.order || id == p.id;
      r
  }

  /** The record after `get_changes` has gone through `pkgs`. */
  function SaveAll(rec: Record, pkgs: seq<Package>, kept: seq<int>): (r: Record)
    ensures RecordValid(rec) ==> RecordValid(r)
    ensures forall i :: 0 <= i < |pkgs| && Reported(pkgs[i], kept) ==> pkgs[i].id in r.saved
    ensures forall id :: id in rec.saved ==> id in r.saved && r.saved[id] == rec.saved[id]
    decreases |pkgs|
  {
    if pkgs == [] then rec
    else
      var n := |pkgs| - 1;
      var prev := SaveAll(rec, pkgs[..n], kept);
      assert forall i :: 0 <= i < n ==> pkgs[..n][i] == pkgs[i];
      if Reported(pkgs[n], kept) then Save(prev, pkgs[n]) else prev
  }

  /** The ids saved are those saved before and those of the reported packages. */
  lemma {:induction false} SaveAllKeys(rec: Record, pkgs: seq<Package>, kept: seq<int>, id: int)
    ensures id in SaveAll(rec, pkgs, kept).saved <==>
      id in rec.saved || exists i :: 0 <= i < |pkgs| && Reported(pkgs[i], kept) && pkgs[i].id == id
    decreases |pkgs|
  {
    if pkgs != [] {
      var n := |pkgs| - 1;
      var prefix := pkgs[..n];
      SaveAllKeys(rec, prefix, kept, id);
      if exists i :: 0 <= i < n && Reported(prefix[i], kept) && prefix[i].id == id {
        var i :| 0 <= i < n && Reported(prefix[i], kept) && prefix[i].id == id;
        assert prefix[i] == pkgs[i];
      }
      if exists i :: 0 <= i < |pkgs| && Reported(pkgs[i], kept) && pkgs[i].id == id {
        var i :| 0 <= i < |pkgs| && Reported(pkgs[i], kept) && pkgs[i].id == id;
        if i < n {
          assert prefix[i] == pkgs[i];
        }
      }
    }
  }

  /** The first time a package with a given id is reported, the package and its reason are saved
      for that id, and later packages with the same id do not replace them. */
  lemma {:induction false} FirstSeenWins(rec: Record, pkgs: seq<Package>, kept: seq<int>, j: int)
    requires 0 <= j < |pkgs| && Reported(pkgs[j], kept) && pkgs[j].id !in rec.saved
    requires forall i :: 0 <= i < j && Reported(pkgs[i], kept) ==> pkgs[i].id != pkgs[j].id
    ensures SaveAll(rec, pkgs, kept).saved[pkgs[j].id] == Saved(pkgs[j], GetReason(pkgs[j]))
    decreases |pkgs|
  {
    var n := |pkgs| - 1;
    var prefix := pkgs[..n];
    var prev := SaveAll(rec, prefix, kept);
    assert SaveAll(rec, pkgs, kept) == if Reported(pkgs[n], kept) then Save(prev, pkgs[n]) else prev;
    if j < n {
      assert forall i :: 0 <= i <= j ==> prefix[i] == pkgs[i];
      FirstSeenWins(rec, prefix, kept, j);
    } else {
      SaveAllKeys(rec, prefix, kept, pkgs[j].id);
      assert pkgs[j].id !in prev.saved by {
        forall i | 0 <= i < n && Reported(prefix[i], kept) ensures prefix[i].id != pkgs[j].id {
          assert prefix[i] == pkgs[i];
        }
      }
    }
  }

  /** The callback arguments for a reported package; the size argument is not modelled. */
  datatype Change = Change(id: int, name: string, version: string, reason: Option<Reason>, status: bool)

  /** What the callback receives for a reported package `p`: its own reason, or the one saved for its
      id when it has none; the status is false exactly for a kept package. */
  function ChangeFor(p: Package, kept: seq<int>, saved: map<int, Saved>): (c: Change)
    requires Reported(p, kept) && p.id in saved
    ensures c.id == p.id && c.name == p.name && Some(c.version) == p.candidate && (c.status <==> p.id !in kept)
    ensures c.reason == if GetReason(p).Some? then GetReason(p) else saved[p.id].reason
  {
    Change(p.id, p.name, p.candidate.value, if GetReason(p).Some? then GetReason(p) else saved[p.id].reason,
           p.id !in kept)
  }

  /** Every reported package of `pkgs` has an entry in `saved`. */
  predicate ReportsSaved(pkgs: seq<Package>, kept: seq<int>, saved: map<int, Saved>)
  {
    forall i :: 0 <= i < |pkgs| && Reported(pkgs[i], kept) ==> pkgs[i].id in saved
  }

  /** The callback calls of `get_changes` over `pkgs`, in order: one per reported package. */
  function Reports(pkgs: seq<Package>, kept: seq<int>, saved: map<int, Saved>): (cs: seq<Change>)
    requires ReportsSaved(pkgs, kept, saved)
    ensures |cs| <= |pkgs|
    decreases |pkgs|
  {
    if pkgs == [] then []
    else
      var n := |pkgs| - 1;
      assert forall i :: 0 <= i < n ==> pkgs[..n][i] == pkgs[i];
      Reports(pkgs[..n], kept, saved) + if Reported(pkgs[n], kept) then [ChangeFor(pkgs[n], kept, saved)] else []
  }

  /** A package is reported exactly when it has a reason or is kept, and has a candidate: a change
      is among the reports exactly when it is the change of some reported package. */
  lemma {:induction false} ReportsAreReported(pkgs: seq<Package>, kept: seq<int>, saved: map<int, Saved>, c: Change)
    requires ReportsSaved(pkgs, kept, saved)
    ensures c in Reports(pkgs, kept, saved) <==>
      exists i :: 0 <= i < |pkgs| && Reported(pkgs[i], kept) && c == ChangeFor(pkgs[i], kept, saved)
    decreases |pkgs|
  {
    if pkgs != [] {
      var n := |pkgs| - 1;
      var prefix := pkgs[..n];
      assert forall i :: 0 <= i < n ==> prefix[i] == pkgs[i];
      ReportsAreReported(prefix, kept, saved, c);
    }
  }

  /** Adding entries for new ids does not change the reports of packages whose ids were saved. */
  lemma {:induction false} ReportsExtend(pkgs: seq<Package>, kept: seq<int>, saved: map<int, Saved>,
                                         more: map<int, Saved>)
    requires ReportsSaved(pkgs, kept, saved)
    requires forall id :: id in saved ==> id in more && more[id] == saved[id]
    ensures ReportsSaved(pkgs, kept, more) && Reports(pkgs, kept, more) == Reports(pkgs, kept, saved)
    decreases |pkgs|
  {
    if pkgs != [] {
      var n := |pkgs| - 1;
      assert forall i :: 0 <= i < n ==> pkgs[..n][i] == pkgs[i];
      ReportsExtend(pkgs[..n], kept, saved, more);
    }
  }

  /** The ids of `kept` whose packages are still marked keep: what the first loop of
      `get_user_changes` leaves of `now_kept`. */
  function StillKept(kept: seq<int>, live: map<int, Package>): seq<int>
    requires forall id :: id in kept ==> id in live
    decreases |kept|
  {
    if kept == [] then []
    else
      var n := |kept| - 1;
      var last := kept[n];
      assert last in kept && forall id :: id in kept[..n] ==> id in kept;
      StillKept(kept[..n], live) + if live[last].markedKeep then [last] else []
  }

  /** The notices of the first loop: each id of `kept` no longer marked keep whose package has a
      reason, with that reason, in order. */
  function RestoredNotices(kept: seq<int>, live: map<int, Package>): seq<Notice>
    requires forall id :: id in kept ==> id in live
    decreases |kept|
  {
    if kept == [] then []
    else
      var n := |kept| - 1;
      var last := kept[n];
      assert last in kept && forall id :: id in kept[..n] ==> id in kept;
      var p := live[last];
      RestoredNotices(kept[..n], live)
        + if !p.markedKeep && GetReason(p).Some? then [Restored(last, GetReason(p).value)] else []
  }

  /** The ids of `order` marked keep and not in `kept`: what the second loop appends to `now_kept`. */
  function NewlyKept(order: seq<int>, kept: seq<int>, live: map<int, Package>): seq<int>
    requires forall id :: id in order ==> id in live
    decreases |order|
  {
    if order == [] then []
    else
      var n := |order| - 1;
      var last := order[n];
      assert last in order && forall id :: id in order[..n] ==> id in order;
      NewlyKept(order[..n], kept, live) + if live[last].markedKeep && last !in kept then [last] else []
  }

  /** A distinct list with one more id it does not hold stays distinct. */
  lemma DistinctSnoc(s: seq<int>, x: int)
    requires Distinct(s) && x !in s
    ensures Distinct(s + [x])
  {
    var t := s + [x];
    forall i, j | 0 <= i < j < |t| ensures t[i] != t[j] {
      if j == |s| {
        assert t[i] == s[i];
      } else {
        assert t[i] == s[i] && t[j] == s[j];
      }
    }
  }

  /** The ids kept by the first loop are those of `kept` still marked keep; none is there twice. */
  lemma {:induction false} StillKeptMembers(kept: seq<int>, live: map<int, Package>)
    requires forall id :: id in kept ==> id in live
    ensures forall id :: id in StillKept(kept, live) <==> id in kept && live[id].markedKeep
    ensures Distinct(kept) ==> Distinct(StillKept(kept, live))
    decreases |kept|
  {
    if kept != [] {
      var n := |kept| - 1;
      var prefix, last := kept[..n], kept[n];
      assert kept == prefix + [last];
      StillKeptMembers(prefix, live);
      if Distinct(kept) && live[last].markedKeep {
        assert last !in prefix;
        DistinctSnoc(StillKept(prefix, live), last);
      }
    }
  }

  /** The ids added by the second loop are those of `order` marked keep and not in `kept`; none is
      there twice when `order` is distinct. */
  lemma {:induction false} NewlyKeptMembers(order: seq<int>, kept: seq<int>, live: map<int, Package>)
    requires forall id :: id in order ==> id in live
    ensures forall id :: id in NewlyKept(order, kept, live) <==> id in order && live[id].markedKeep && id !in kept
    ensures Distinct(order) ==> Distinct(NewlyKept(order, kept, live))
    decreases |order|
  {
    if order != [] {
      var n := |order| - 1;
      var prefix, last := order[..n], order[n];
      assert order == prefix + [last];
      NewlyKeptMembers(prefix, kept, live);
      if Distinct(order) && live[last].markedKeep && last !in kept {
        assert last !in prefix;
        DistinctSnoc(NewlyKept(prefix, kept, live), last);
      }
    }
  }

  /** Every notice of the first loop is for an id of `kept` no longer marked keep, with the reason
      its package now has. */
  lemma {:induction false} RestoredNoticesMeaning(kept: seq<int>, live: map<int, Package>)
    requires forall id :: id in kept ==> id in live
    ensures forall x :: x in RestoredNotices(kept, live) ==>
      (x.Restored? && x.id in kept && !live[x.id].markedKeep && GetReason(live[x.id]) == Some(x.reason))
    decreases |kept|
  {
    if kept != [] {
      var n := |kept| - 1;
      assert kept == kept[..n] + [kept[n]];
      RestoredNoticesMeaning(kept[..n], live);
    }
  }

  /** The callback calls of `get_user_changes`. */
  datatype Notice = Kept(id: int) | Restored(id: int, reason: Reason)

  /** One `keep` notice per id, in order. */
  function KeptNotices(ids: seq<int>): (r: seq<Notice>)
    ensures |r| == |ids| && forall i :: 0 <= i < |ids| ==> r[i] == Kept(ids[i])
  {
    seq(|ids|, i requires 0 <= i < |ids| => Kept(ids[i]))
  }

  /** After `get_user_changes`, an id is kept exactly when it is saved and its package is marked keep. */
  lemma KeptIffMarkedKeep(kept: seq<int>, rec: Record, live: map<int, Package>, id: int)
    requires RecordValid(rec) && forall k :: k in kept ==> k in rec.saved
    requires forall k :: k in rec.saved ==> k in live
    ensures var still := StillKept(kept, live);
      id in still + NewlyKept(rec.order, still, live) <==> id in rec.saved && live[id].markedKeep
  {
    StillKeptMembers(kept, live);
    NewlyKeptMembers(rec.order, StillKept(kept, live), live);
  }

  class Apt {
    /** Whether `mark_for_upgrade` has run since the last `clear`. */
    var changed: bool
    var idWithPackages: Record
    var nowKept: seq<int>

    ghost predicate Valid()
      reads this
    {
      RecordValid(idWithPackages) && Distinct(nowKept) && forall id :: id in nowKept ==> id in idWithPackages.saved
    }

    /** The bookkeeping part of `__init__`. */
    constructor ()
      ensures Valid() && !changed
      ensures idWithPackages == Record(map[], []) && nowKept == []
    {
      changed := false;
      idWithPackages := Record(map[], []);
      nowKept := [];
    }

    /** `clear`: forgets every change made. */
    method Clear()
      modifies this
      ensures Valid() && !changed
      ensures idWithPackages == Record(map[], []) && nowKept == []
    {
      changed := false;
      idWithPackages := Record(map[], []);
      nowKept := [];
    }

    /** `get_changes` over the packages of the cache, in its order: every reported package is passed to
        the callback, and its id is saved the first time it is seen. */
    method GetChanges(pkgs: seq<Package>) returns (changes: seq<Change>)
      requires Valid()
      modifies this`idWithPackages
      ensures Valid()
      ensures idWithPackages == SaveAll(old(idWithPackages), pkgs, nowKept)
      ensures ReportsSaved(pkgs, nowKept, idWithPackages.saved) && changes == Reports(pkgs, nowKept, idWithPackages.saved)
    {
      changes := [];
      for i := 0 to |pkgs|
        invariant Valid()
        invariant idWithPackages == SaveAll(old(idWithPackages), pkgs[..i], nowKept)
        invariant ReportsSaved(pkgs[..i], nowKept, idWithPackages.saved)
        invariant changes == Reports(pkgs[..i], nowKept, idWithPackages.saved)
      {
        var pkg := pkgs[i];
        assert pkgs[..i + 1][..i] == pkgs[..i] && pkgs[..i + 1][i] == pkg;
        GetChangesStep(pkgs, i, pkg);
        if Reported(pkg, nowKept) {
          changes := changes + [ChangeFor(pkg, nowKept, idWithPackages.saved)];
        }
      }
      assert pkgs[..|pkgs|] == pkgs;
    }

    /** The saving part of one round of `get_changes`. */
    method GetChangesStep(pkgs: seq<Package>, i: int, pkg: Package)
      requires Valid() && 0 <= i < |pkgs| && pkg == pkgs[i]
      requires ReportsSaved(pkgs[..i], nowKept, idWithPackages.saved)
      modifies this`idWithPackages
      ensures Valid()
      ensures idWithPackages == if Reported(pkg, nowKept) then Save(old(idWithPackages), pkg) else old(idWithPackages)
      ensures ReportsSaved(pkgs[..i + 1], nowKept, idWithPackages.saved)
      ensures Reports(pkgs[..i], nowKept, idWithPackages.saved) == Reports(pkgs[..i], nowKept, old(idWithPackages.saved))
    {
      var reason := GetReason(pkg);
      if reason.None? && pkg.id !in nowKept {
        assert pkgs[..i + 1] == pkgs[..i] + [pkg];
        return;
      }
      if pkg.candidate.None? {
        assert pkgs[..i + 1] == pkgs[..i] + [pkg];
        return;
      }
      if pkg.id !in idWithPackages.saved {
        idWithPackages := Record(idWithPackages.saved[pkg.id := Saved(pkg, reason)], idWithPackages.order + [pkg.id]);
      }
      ReportsExtend(pkgs[..i], nowKept, old(idWithPackages.saved), idWithPackages.saved);
      assert pkgs[..i + 1] == pkgs[..i] + [pkg];
    }

    /** `get_user_changes`, with `live` the current marks of the saved packages: kept ids no longer
        marked keep are dropped, with a notice of their reason when they have one, then the saved ids
        now marked keep that were not kept are added, in insertion order, each with a `keep` notice. */
    method GetUserChanges(live: map<int, Package>) returns (notices: seq<Notice>)
      requires Valid() && forall id :: id in idWithPackages.saved ==> id in live
      modifies this`nowKept
      ensures Valid()
      ensures nowKept == StillKept(old(nowKept), live) + NewlyKept(idWithPackages.order, StillKept(old(nowKept), live), live)
      ensures notices == RestoredNotices(old(nowKept), live)
        + KeptNotices(NewlyKept(idWithPackages.order, StillKept(old(nowKept), live), live))
    {
      ghost var kept := nowKept;
      var restored := DropUnkept(live);
      var added := AddKept(live);
      notices := restored + added;
      KeptStaysDistinct(kept, idWithPackages.order, live);
    }

    /** The first loop of `get_user_changes`, over a copy of `now_kept`: an id no longer marked keep is
        removed, with a notice of its reason when it has one. */
    method DropUnkept(live: map<int, Package>) returns (notices: seq<Notice>)
      requires Distinct(nowKept) && forall id :: id in nowKept ==> id in live
      modifies this`nowKept
      ensures nowKept == StillKept(old(nowKept), live)
      ensures notices == RestoredNotices(old(nowKept), live)
    {
      var kept := nowKept;
      var now := kept;
      ghost var still: seq<int> := [];
      notices := [];
      for i := 0 to |kept|
        invariant forall id :: id in kept[..i] ==> id in live
        invariant still == StillKept(kept[..i], live) && now == still + kept[i..]
        invariant notices == RestoredNotices(kept[..i], live)
      {
        var id := kept[i];
        RestoredStep(kept, live, i);
        var pkg := live[id];
        if !pkg.markedKeep {
          var reason := GetReason(pkg);
          if reason.Some? {
            notices := notices + [Restored(id, reason.value)];
          }
          now := RemoveFirst(now, id);
        } else {
          still := still + [id];
        }
      }
      assert kept[..|kept|] == kept;
      nowKept := now;
    }

    /** The second loop of `get_user_changes`, over `id_with_packages` in insertion order: an id marked
        keep and not kept is added, with a `keep` notice. */
    method AddKept(live: map<int, Package>) returns (notices: seq<Notice>)
      requires Distinct(idWithPackages.order) && forall id :: id in idWithPackages.order ==> id in live
      modifies this`nowKept
      ensures nowKept == old(nowKept) + NewlyKept(idWithPackages.order, old(nowKept), live)
      ensures notices == KeptNotices(NewlyKept(idWithPackages.order, old(nowKept), live))
    {
      var still := nowKept;
      var now := still;
      var order := idWithPackages.order;
      ghost var added: seq<int> := [];
      notices := [];
      for i := 0 to |order|
        invariant forall id :: id in order[..i] ==> id in live
        invariant added == NewlyKept(order[..i], still, live) && now == still + added
        invariant notices == KeptNotices(added)
      {
        var id := order[i];
        NewlyKeptStep(order, still, live, i);
        if live[id].markedKeep && id !in now {
          KeptNoticesSnoc(added, id);
          assert still + (added + [id]) == now + [id];
          notices := notices + [Kept(id)];
          now := now + [id];
          added := added + [id];
        }
      }
      assert order[..|order|] == order;
      nowKept := now;
    }
  }

  /** One round of the first loop of `get_user_changes`, on the values it works with. */
  lemma RestoredStep(kept: seq<int>, live: map<int, Package>, i: int)
    requires Distinct(kept) && 0 <= i < |kept| && forall id :: id in kept ==> id in live
    ensures kept[i] in live && forall id :: id in kept[..i + 1] ==> id in live
    ensures var p := live[kept[i]];
      && StillKept(kept[..i + 1], live) == StillKept(kept[..i], live) + (if p.markedKeep then [kept[i]] else [])
      && RestoredNotices(kept[..i + 1], live) == RestoredNotices(kept[..i], live)
           + (if !p.markedKeep && GetReason(p).Some? then [Restored(kept[i], GetReason(p).value)] else [])
    ensures kept[i] in StillKept(kept[..i], live) + kept[i..]
    ensures !live[kept[i]].markedKeep ==>
      RemoveFirst(StillKept(kept[..i], live) + kept[i..], kept[i]) == StillKept(kept[..i], live) + kept[i + 1..]
    ensures live[kept[i]].markedKeep ==>
      StillKept(kept[..i], live) + kept[i..] == StillKept(kept[..i + 1], live) + kept[i + 1..]
  {
    var x := kept[i];
    assert x in kept;
    assert kept[..i + 1][..i] == kept[..i] && kept[..i + 1][i] == x;
    assert kept[i..] == [x] + kept[i + 1..];
    assert x !in kept[..i];
    StillKeptMembers(kept[..i], live);
    var prefix := StillKept(kept[..i], live);
    if !live[x].markedKeep {
      assert prefix + kept[i..] == prefix + [x] + kept[i + 1..];
      RemoveFirstAt(prefix, x, kept[i + 1..]);
    }
  }

  /** One round of the second loop of `get_user_changes`, on the values it works with. */
  lemma NewlyKeptStep(order: seq<int>, still: seq<int>, live: map<int, Package>, i: int)
    requires Distinct(order) && 0 <= i < |order| && forall id :: id in order ==> id in live
    ensures order[i] in live && forall id :: id in order[..i + 1] ==> id in live
    ensures order[i] !in NewlyKept(order[..i], still, live)
    ensures NewlyKept(order[..i + 1], still, live) == NewlyKept(order[..i], still, live)
      + (if live[order[i]].markedKeep && order[i] !in still then [order[i]] else [])
  {
    var x := order[i];
    assert x in order;
    assert order[..i + 1][..i] == order[..i] && order[..i + 1][i] == x;
    assert x !in order[..i];
    NewlyKeptMembers(order[..i], still, live);
  }

  /** One more id adds one `keep` notice. */
  lemma KeptNoticesSnoc(ids: seq<int>, x: int)
    ensures KeptNotices(ids + [x]) == KeptNotices(ids) + [Kept(x)]
  {
    assert KeptNotices(ids + [x]) == KeptNotices(ids) + [Kept(x)];
  }

  /** The kept list `get_user_changes` leaves lists distinct saved ids. */
  lemma KeptStaysDistinct(kept: seq<int>, order: seq<int>, live: map<int, Package>)
    requires Distinct(kept) && Distinct(order)
    requires forall id :: id in kept ==> id in live
    requires forall id :: id in order ==> id in live
    ensures var still := StillKept(kept, live);
      Distinct(still + NewlyKept(order, still, live))
      && (forall id :: id in still ==> id in kept) && (forall id :: id in NewlyKept(order, still, live) ==> id in order)
  {
    StillKeptMembers(kept, live);
    var still := StillKept(kept, live);
    NewlyKeptMembers(order, still, live);
    var added := NewlyKept(order, still, live);
    var all := still + added;
    forall i, j | 0 <= i < j < |all| ensures all[i] != all[j] {
      if j >= |still| && i < |still| {
        assert all[i] in still && all[j] == added[j - |still|];
      } else if i >= |still| {
        assert all[i] == added[i - |still|] && all[j] == added[j - |still|];
      }
    }
  }
}
