/**
 Permission lists of the operator console: normalisation before storage, the
 resolved set a session works with, validation against the grantable vocabulary,
 and the SQL containment test the last-manager count uses.
 */
module Permissions {
  import opened GoStrings

  const ALL := "*"
  const ADMINS_MANAGE := "admins.manage"

  const ASSIGNABLE: seq<string> := [
    "accounts.read", "accounts.manage", "channels.read", "channels.manage", "bots.read", "bots.manage",
    "messages.read", "messages.manage", "moderation.review", "broadcasts.read", "broadcasts.send",
    "content.read", "content.manage", "usernames.read", "usernames.manage", "phones.read", "phones.manage",
    "gifts.read", "gifts.manage", "ratings.read", "ratings.manage", "stars.read", "storage.read",
    "storage.manage", "dashboard.read", "premium.manage", "donations.manage", "prices.manage",
    "bots.token.read", "verification.review", "verification.revoke", "botverification.review",
    "botverification.manage", "audit.read", "admins.manage", "server.manage"]

  /** The trimmed, non-blank names of a raw list, in order. */
  function Names(raw: seq<string>): seq<string> {
    if raw == [] then []
    else
      var last := TrimSpace(raw[|raw| - 1]);
      Names(raw[..|raw| - 1]) + if last == "" then [] else [last]
  }

  /** First occurrences only, in order. */
  function Dedup(s: seq<string>): (r: seq<string>)
    ensures forall x :: x in r <==> x in s
    ensures Distinct(r)
  {
    if s == [] then []
    else
      var front := Dedup(s[..|s| - 1]);
      assert s == s[..|s| - 1] + [s[|s| - 1]];
      if s[|s| - 1] in front then front else front + [s[|s| - 1]]
  }

  ghost predicate Distinct(s: seq<string>) {
    forall i, j :: 0 <= i < j < |s| ==> s[i] != s[j]
  }

  function Normalise(raw: seq<string>): seq<string> {
    if ALL in Names(raw) then [ALL] else Dedup(Names(raw))
  }

  /** The resolved permission set of a session. */
  datatype Panel = Panel(all: bool, names: set<string>, list: seq<string>) {
    predicate Has(permission: string) {
      all || permission in names
    }
  }

  function PanelOf(raw: seq<string>): Panel {
    Panel(ALL in Names(raw), (set n | n in Names(raw)), Dedup(Names(raw)))
  }

  /** `permissions @> ARRAY[$1] OR permissions @> ARRAY['*']` on a stored list. */
  predicate SqlHolds(stored: seq<string>, permission: string) {
    permission in stored || ALL in stored
  }

  predicate Assignable(permissions: seq<string>) {
    forall p :: p in permissions ==> p in ASSIGNABLE && p != ALL
  }

  method NormalisePermissions(raw: seq<string>) returns (out: seq<string>)
    ensures out == Normalise(raw)
  {
    var seen: set<string> := {};
    out := [];
    for i := 0 to |raw|
      invariant out == Dedup(Names(raw[..i]))
      invariant forall n :: n in seen <==> n in Names(raw[..i])
      invariant ALL !in Names(raw[..i])
    {
      NamesStep(raw, i);
      var p := TrimSpace(raw[i]);
      if p == "" { continue; }
      if p == ALL {
        WildcardStays(raw, i);
        return [ALL];
      }
      if p !in seen {
        seen := seen + {p};
        out := out + [p];
      }
    }
    assert raw[..|raw|] == raw;
  }

  method NewPanelPermissions(raw: seq<string>) returns (panel: Panel)
    ensures panel == PanelOf(raw)
  {
    var all, names, list := false, {}, [];
    for i := 0 to |raw|
      invariant list == Dedup(Names(raw[..i]))
      invariant forall n :: n in names <==> n in Names(raw[..i])
      invariant all <==> ALL in Names(raw[..i])
    {
      NamesStep(raw, i);
      var p := TrimSpace(raw[i]);
      if p == "" { continue; }
      if p in names { continue; }
      if p == ALL { all := true; }
      names := names + {p};
      list := list + [p];
    }
    assert raw[..|raw|] == raw;
    panel := Panel(all, names, list);
  }

  method Contains(list: seq<string>, p: string) returns (found: bool)
    ensures found <==> p in list
  {
    found := false;
    for j := 0 to |list|
      invariant found <==> p in list[..j]
    {
      if p == list[j] { return true; }
    }
  }

  method ValidatePermissions(permissions: seq<string>) returns (ok: bool)
    ensures ok <==> Assignable(permissions)
  {
    for i := 0 to |permissions|
      invariant Assignable(permissions[..i])
    {
      assert permissions[..i + 1] == permissions[..i] + [permissions[i]];
      var p := permissions[i];
      assert p in permissions;
      if p == ALL { return false; }
      var found := Contains(ASSIGNABLE, p);
      if !found { return false; }
    }
    assert permissions[..|permissions|] == permissions;
    return true;
  }

  /** One turn of either loop: the next element adds its trimmed name unless it is blank or already there. */
  lemma NamesStep(raw: seq<string>, i: nat)
    requires i < |raw|
    ensures var p := TrimSpace(raw[i]);
            var before, after := Names(raw[..i]), Names(raw[..i + 1]);
            && after == before + (if p == "" then [] else [p])
            && Dedup(after) == Dedup(before) + (if p == "" || p in before then [] else [p])
  {
    assert raw[..i + 1][..i] == raw[..i];
    var p := TrimSpace(raw[i]);
    var before, after := Names(raw[..i]), Names(raw[..i + 1]);
    if p == "" {
      assert after == before;
    } else {
      assert after[..|after| - 1] == before;
    }
  }

  lemma {:induction false} NamesMonotone(raw: seq<string>, i: nat)
    requires i <= |raw|
    ensures Names(raw[..i]) <= Names(raw)
    decreases |raw| - i
  {
    if i == |raw| {
      assert raw[..i] == raw;
    } else {
      NamesStep(raw, i);
      NamesMonotone(raw, i + 1);
    }
  }

  /** A wildcard anywhere decides the whole list. */
  lemma WildcardStays(raw: seq<string>, i: nat)
    requires i < |raw| && TrimSpace(raw[i]) == ALL
    ensures Normalise(raw) == [ALL]
  {
    NamesStep(raw, i);
    NamesMonotone(raw, i + 1);
    var n := |Names(raw[..i])|;
    assert Names(raw)[n] == Names(raw[..i + 1])[n] == ALL;
  }

  lemma {:induction false} NamesTrimmed(raw: seq<string>)
    ensures forall n :: n in Names(raw) ==> Trimmed(n) && n != ""
  {
    if raw != [] { NamesTrimmed(raw[..|raw| - 1]); }
  }

  lemma NamesSnoc(front: seq<string>, last: string)
    requires Trimmed(last) && last != ""
    ensures Names(front + [last]) == Names(front) + [last]
  {
    assert (front + [last])[..|front|] == front;
  }

  lemma {:induction false} NamesOfTrimmed(s: seq<string>)
    requires forall n :: n in s ==> Trimmed(n) && n != ""
    ensures Names(s) == s
  {
    if s != [] {
      var front, last := s[..|s| - 1], s[|s| - 1];
      assert last in s && forall n :: n in front ==> n in s;
      NamesOfTrimmed(front);
      assert s == front + [last];
      NamesSnoc(front, last);
    }
  }

  lemma {:induction false} DedupOfDistinct(s: seq<string>)
    requires Distinct(s)
    ensures Dedup(s) == s
  {
    if s != [] {
      var front := s[..|s| - 1];
      DedupOfDistinct(front);
      assert forall i :: 0 <= i < |front| ==> front[i] == s[i];
      assert s == front + [s[|s| - 1]];
    }
  }

  /** The list confers the right: it, or the wildcard, stands somewhere in the list, however padded. */
  ghost predicate Confers(raw: seq<string>, permission: string) {
    permission != "" && (Occurs(raw, permission) || Occurs(raw, ALL))
  }

  ghost predicate Occurs(raw: seq<string>, name: string) {
    exists i :: 0 <= i < |raw| && TrimSpace(raw[i]) == name
  }

  lemma OccursSnoc(front: seq<string>, last: string, name: string)
    ensures Occurs(front + [last], name) <==> Occurs(front, name) || TrimSpace(last) == name
  {
    var raw := front + [last];
    if Occurs(front, name) {
      var i :| 0 <= i < |front| && TrimSpace(front[i]) == name;
      assert raw[i] == front[i];
    }
    assert raw[|front|] == last;
  }

  /** The names are exactly the non-blank entries, trimmed. */
  lemma {:induction false} NamesExactly(raw: seq<string>, name: string)
    ensures name in Names(raw) <==> name != "" && Occurs(raw, name)
  {
    if raw != [] {
      var front, last := raw[..|raw| - 1], raw[|raw| - 1];
      assert raw == front + [last];
      NamesExactly(front, name);
      OccursSnoc(front, last, name);
    }
  }

  /** What a session may do is what its list confers. */
  lemma HasExactly(raw: seq<string>, permission: string)
    requires permission != ""
    ensures PanelOf(raw).Has(permission) <==> Confers(raw, permission)
  {
    NamesExactly(raw, permission);
    NamesExactly(raw, ALL);
  }

  lemma WildcardNotAssignable()
    ensures ALL !in ASSIGNABLE
  {
    assert forall i :: 0 <= i < |ASSIGNABLE| ==> |ASSIGNABLE[i]| > 1;
  }

  lemma NormalisedNames(raw: seq<string>)
    ensures forall x :: x in Normalise(raw) ==> x != "" && Occurs(raw, x)
    ensures forall x :: x != "" && Occurs(raw, x) ==> x in Normalise(raw) || ALL in Normalise(raw)
  {
    forall x ensures x in Names(raw) <==> x != "" && Occurs(raw, x) { NamesExactly(raw, x); }
  }

  /** Validation accepts exactly the lists that confer nothing outside the vocabulary. */
  lemma AssignableExactly(raw: seq<string>)
    ensures Assignable(Normalise(raw)) <==> forall x :: Confers(raw, x) ==> x in ASSIGNABLE
  {
    WildcardNotAssignable();
    NormalisedNames(raw);
    var list := Normalise(raw);
    AssignableList(raw, list);
  }

  lemma AssignableList(raw: seq<string>, list: seq<string>)
    requires ALL !in ASSIGNABLE && forall x :: x in list ==> x != "" && Occurs(raw, x)
    requires forall x :: x != "" && Occurs(raw, x) ==> x in list || ALL in list
    ensures Assignable(list) <==> forall x :: Confers(raw, x) ==> x in ASSIGNABLE
  {
    if Assignable(list) {
      assert ALL !in list;
    } else {
      var p :| p in list && !(p in ASSIGNABLE && p != ALL);
      assert Confers(raw, p);
    }
  }

  /** Of two names in the deduplicated list the one that occurs first comes first. */
  lemma {:induction false} DedupOrder(s: seq<string>, i: nat, j: nat)
    requires i < j < |Dedup(s)|
    ensures exists k :: 0 <= k < |s| && s[k] == Dedup(s)[i] && Dedup(s)[j] !in s[..k + 1]
  {
    var front := s[..|s| - 1];
    var r := Dedup(front);
    if j < |r| {
      DedupOrder(front, i, j);
      var k :| 0 <= k < |front| && front[k] == r[i] && r[j] !in front[..k + 1];
      assert front[..k + 1] == s[..k + 1];
    } else {
      assert r[i] in front;
      var k :| 0 <= k < |front| && front[k] == r[i];
      assert s[..k + 1] <= front && s[k] == r[i];
      assert forall x :: x in s[..k + 1] ==> x in front;
    }
  }

  /** A normalised list is made of trimmed, non-blank, distinct names: it is its own name list. */
  lemma NormalisedShape(raw: seq<string>)
    ensures Names(Normalise(raw)) == Normalise(raw)
    ensures Distinct(Normalise(raw))
    ensures ALL in Normalise(raw) ==> Normalise(raw) == [ALL]
  {
    NamesTrimmed(raw);
    NamesOfTrimmed(Normalise(raw));
  }

  /** Normalising twice changes nothing. */
  lemma NormaliseIdempotent(raw: seq<string>)
    ensures Normalise(Normalise(raw)) == Normalise(raw)
  {
    NormalisedShape(raw);
    DedupOfDistinct(Normalise(raw));
  }

  /** The right a session gets from the raw list, from the stored list, and the one SQL counts, all agree. */
  lemma HoldsAgree(raw: seq<string>, permission: string)
    ensures PanelOf(raw).Has(permission) <==> PanelOf(Normalise(raw)).Has(permission)
    ensures PanelOf(raw).Has(permission) <==> SqlHolds(Normalise(raw), permission)
  {
    NormalisedShape(raw);
  }

  /** What passes validation after normalising confers nothing outside the vocabulary, and not the wildcard. */
  lemma ValidatedConfersOnlyAssignable(raw: seq<string>, permission: string)
    ensures Assignable(Normalise(raw)) ==>
              ALL !in Names(raw) && (PanelOf(Normalise(raw)).Has(permission) ==> permission in ASSIGNABLE)
  {
    NormalisedShape(raw);
  }
}
