/**
 * The account permission table and its audit log
 * (features/attendee-access/account-permissions.server.ts), interleaved with
 * the status changes of features/attendee-operations/identity-manager.server.ts.
 * Every command locks the person's row, so each is one step.
 */
module Permissions {
  import opened Basics

  // ---- Reasons ----

  /** One UTF-16 code unit: `length` counts these. */
  type Unit = n: nat | n < 0x10000

  type Text = seq<Unit>

  /** What `trim` and `\s` take for white space. */
  predicate IsSpace(c: Unit) {
    || 0x09 <= c <= 0x0d || c == 0x20 || c == 0xa0 || c == 0x1680 || 0x2000 <= c <= 0x200a
    || c == 0x2028 || c == 0x2029 || c == 0x202f || c == 0x205f || c == 0x3000 || c == 0xfeff
  }

  function TrimStart(s: Text): Text {
    if s != [] && IsSpace(s[0]) then TrimStart(s[1..]) else s
  }

  function TrimEnd(s: Text): Text {
    if s != [] && IsSpace(s[|s| - 1]) then TrimEnd(s[..|s| - 1]) else s
  }

  function Trim(s: Text): Text {
    TrimEnd(TrimStart(s))
  }

  /** Every run of white space becomes one space. */
  function Collapse(s: Text): Text {
    if s == [] then []
    else if !IsSpace(s[0]) then [s[0]] + Collapse(s[1..])
    else if 1 < |s| && IsSpace(s[1]) then Collapse(s[1..])
    else [0x20] + Collapse(s[1..])
  }

  ghost predicate AllSpaces(s: Text) {
    forall i :: 0 <= i < |s| ==> IsSpace(s[i])
  }

  lemma {:induction false} TrimStartCuts(s: Text) returns (i: nat)
    ensures i <= |s| && TrimStart(s) == s[i..] && AllSpaces(s[..i])
    ensures i < |s| ==> !IsSpace(s[i])
  {
    i := 0;
    if s != [] && IsSpace(s[0]) {
      i := TrimStartCuts(s[1..]);
      assert s[..i + 1] == [s[0]] + s[1..][..i];
      assert s[1..][i..] == s[i + 1..];
      i := i + 1;
    }
  }

  lemma {:induction false} TrimEndCuts(s: Text) returns (i: nat)
    ensures i <= |s| && TrimEnd(s) == s[..i] && AllSpaces(s[i..])
    ensures i > 0 ==> !IsSpace(s[i - 1])
  {
    i := |s|;
    if s != [] && IsSpace(s[|s| - 1]) {
      i := TrimEndCuts(s[..|s| - 1]);
      assert s[i..] == s[..|s| - 1][i..] + [s[|s| - 1]];
      assert s[..|s| - 1][..i] == s[..i];
    }
  }

  /** `trim` cuts white space from both ends and leaves none there. */
  lemma TrimIsExact(s: Text) returns (i: nat, j: nat)
    ensures i <= j <= |s| && Trim(s) == s[i..j]
    ensures AllSpaces(s[..i]) && AllSpaces(s[j..])
    ensures i < j ==> !IsSpace(s[i]) && !IsSpace(s[j - 1])
  {
    i := TrimStartCuts(s);
    var k := TrimEndCuts(s[i..]);
    j := i + k;
    assert s[i..][..k] == s[i..j] && s[i..][k..] == s[j..];
  }

  /** A run of white space collapses to one space, and anything else parts what is collapsed on either side of it. */
  lemma {:induction false} CollapseIsExact(a: Text, c: Unit, b: Text)
    ensures AllSpaces(a) ==> Collapse(a) == if a == [] then [] else [0x20]
    ensures !IsSpace(c) ==> Collapse(a + [c] + b) == Collapse(a) + [c] + Collapse(b)
  {
    if a == [] {
      assert a + [c] + b == [c] + b;
    } else {
      CollapseIsExact(a[1..], c, b);
      assert a + [c] + b == [a[0]] + (a[1..] + [c] + b);
      assert (a + [c] + b)[1..] == a[1..] + [c] + b;
      assert |a| > 1 ==> (a + [c] + b)[1] == a[1];
      assert |a| == 1 ==> (a + [c] + b)[1] == c;
    }
  }

  predicate GoodReason(reason: Text) {
    3 <= |reason| <= 500
  }

  // ---- The tables ----

  datatype Status = Active | Restricted

  datatype Actor = Actor(isRootOwner: bool, id: string)

  datatype Grant = Grant(actor: Actor, reason: Text)

  type Key = (string, string)

  datatype Audit =
    | PermissionSet(key: Key, enabled: bool, actor: Actor, reason: Text)
    | StatusSet(person: string, before: Status, after: Status, actor: Actor, reason: Text)

  datatype State = State(people: map<string, Status>, grants: map<Key, Grant>, audit: seq<Audit>)

  datatype Command =
    | SetPermission(person: string, permission: string, enabled: bool, actor: Actor, reason: Text)
    | SetStatus(person: string, status: Status, actor: Actor, reason: Text)
    | AddPerson(person: string)

  datatype Reply = Done(enabled: bool) | Refused(status: int) | Throws

  function SetPermissionOf(s: State, c: Command): (State, Reply)
    requires c.SetPermission?
  {
    var reason := Trim(c.reason);
    var key := (c.person, c.permission);
    if !GoodReason(reason) then (s, Refused(400))
    else if c.person !in s.people then (s, Refused(404))
    else if c.enabled && s.people[c.person] != Active then (s, Refused(409))
    else if c.enabled == (key in s.grants) then (s, Done(c.enabled))
    else
      (s.(grants := if c.enabled then s.grants[key := Grant(c.actor, reason)] else s.grants - {key},
          audit := s.audit + [PermissionSet(key, c.enabled, c.actor, reason)]),
       Done(c.enabled))
  }

  function SetStatusOf(s: State, c: Command): State
    requires c.SetStatus?
  {
    var reason := Collapse(Trim(c.reason));
    if !GoodReason(reason) || c.person !in s.people then s
    else
      s.(people := s.people[c.person := c.status],
         audit := s.audit + [StatusSet(c.person, s.people[c.person], c.status, c.actor, reason)])
  }

  /** A new person starts active. */
  function Step(s: State, c: Command): State {
    match c
    case SetPermission(_, _, _, _, _) => SetPermissionOf(s, c).0
    case SetStatus(_, _, _, _) => SetStatusOf(s, c)
    case AddPerson(p) => if p in s.people then s else s.(people := s.people[p := Active])
  }

  function Exec(s: State, commands: seq<Command>): State {
    if commands == [] then s else Step(Exec(s, commands[..|commands| - 1]), commands[|commands| - 1])
  }

  // ---- What the audit log says ----

  /** The grants a reader of the log would expect. */
  function Replay(audit: seq<Audit>): map<Key, Grant> {
    if audit == [] then map[]
    else
      var before, last := Replay(audit[..|audit| - 1]), audit[|audit| - 1];
      if last.StatusSet? then before
      else if last.enabled then before[last.key := Grant(last.actor, last.reason)]
      else before - {last.key}
  }

  /** What the log says of one person and permission, in order: granted or revoked. */
  function History(audit: seq<Audit>, key: Key): seq<bool> {
    if audit == [] then []
    else
      var before, last := History(audit[..|audit| - 1], key), audit[|audit| - 1];
      if last.PermissionSet? && last.key == key then before + [last.enabled] else before
  }

  /** The status a person has after the log; without an entry it is the one at the start. */
  function StatusAfter(start: map<string, Status>, audit: seq<Audit>, person: string): Status {
    if audit == [] then if person in start then start[person] else Active
    else
      var last := audit[|audit| - 1];
      if last.StatusSet? && last.person == person then last.after
      else StatusAfter(start, audit[..|audit| - 1], person)
  }

  ghost predicate Alternates(history: seq<bool>) {
    forall i :: 0 <= i < |history| ==> (history[i] <==> i % 2 == 0)
  }

  ghost predicate GrantedWhileActive(start: map<string, Status>, audit: seq<Audit>, i: nat)
    requires i < |audit|
  {
    audit[i].PermissionSet? && audit[i].enabled ==> StatusAfter(start, audit[..i], audit[i].key.0) == Active
  }

  ghost predicate KeyInv(s: State, key: Key) {
    && Alternates(History(s.audit, key))
    && (key in s.grants <==> |History(s.audit, key)| % 2 == 1)
  }

  ghost predicate Inv(start: map<string, Status>, s: State) {
    && s.grants == Replay(s.audit)
    && (forall key :: KeyInv(s, key))
    && (forall p <- s.people :: s.people[p] == StatusAfter(start, s.audit, p))
    && (forall p :: p !in s.people ==> StatusAfter(start, s.audit, p) == Active)
    && (forall i :: 0 <= i < |s.audit| ==> GrantedWhileActive(start, s.audit, i))
  }

  // ---- Every command keeps it ----

  lemma AuditKeepsHistory(start: map<string, Status>, audit: seq<Audit>, e: Audit)
    requires forall i :: 0 <= i < |audit| ==> GrantedWhileActive(start, audit, i)
    requires e.PermissionSet? && e.enabled ==> StatusAfter(start, audit, e.key.0) == Active
    ensures (audit + [e])[..|audit|] == audit
    ensures forall i :: 0 <= i < |audit + [e]| ==> GrantedWhileActive(start, audit + [e], i)
  {
    assert (audit + [e])[..|audit|] == audit;
    forall i | 0 <= i < |audit|
      ensures GrantedWhileActive(start, audit + [e], i)
    {
      assert (audit + [e])[..i] == audit[..i];
      assert GrantedWhileActive(start, audit, i);
    }
  }

  lemma PermissionKeepsKeys(s: State, key: Key, enabled: bool, actor: Actor, reason: Text)
    requires forall k :: KeyInv(s, k)
    requires enabled <==> key !in s.grants
    ensures var t := s.(grants := if enabled then s.grants[key := Grant(actor, reason)] else s.grants - {key},
                        audit := s.audit + [PermissionSet(key, enabled, actor, reason)]);
      forall k :: KeyInv(t, k)
  {
    var t := s.(grants := if enabled then s.grants[key := Grant(actor, reason)] else s.grants - {key},
                audit := s.audit + [PermissionSet(key, enabled, actor, reason)]);
    assert t.audit[..|s.audit|] == s.audit;
    forall k
      ensures KeyInv(t, k)
    {
      assert KeyInv(s, k);
      if k == key {
        assert History(t.audit, k) == History(s.audit, k) + [enabled];
      } else {
        assert History(t.audit, k) == History(s.audit, k);
      }
    }
  }

  /** Granting or revoking and logging it keeps table, log and status in agreement. */
  lemma PermissionLogged(start: map<string, Status>, s: State, key: Key, enabled: bool, actor: Actor, reason: Text)
    requires Inv(start, s) && (enabled <==> key !in s.grants)
    requires enabled ==> StatusAfter(start, s.audit, key.0) == Active
    ensures Inv(start, s.(grants := if enabled then s.grants[key := Grant(actor, reason)] else s.grants - {key},
                          audit := s.audit + [PermissionSet(key, enabled, actor, reason)]))
  {
    PermissionKeepsKeys(s, key, enabled, actor, reason);
    AuditKeepsHistory(start, s.audit, PermissionSet(key, enabled, actor, reason));
  }

  lemma PermissionKeepsInv(start: map<string, Status>, s: State, c: Command)
    requires Inv(start, s) && c.SetPermission?
    ensures Inv(start, Step(s, c))
  {
    var key := (c.person, c.permission);
    if Step(s, c) != s {
      PermissionLogged(start, s, key, c.enabled, c.actor, Trim(c.reason));
    }
  }

  /** Logging a status change beside making it keeps table, log and status in agreement. */
  lemma StatusLogged(start: map<string, Status>, s: State, person: string, status: Status, e: Audit)
    requires Inv(start, s) && person in s.people
    requires e.StatusSet? && e.person == person && e.after == status
    ensures Inv(start, s.(people := s.people[person := status], audit := s.audit + [e]))
  {
    var t := s.(people := s.people[person := status], audit := s.audit + [e]);
    AuditKeepsHistory(start, s.audit, e);
    forall k
      ensures KeyInv(t, k)
    {
      assert KeyInv(s, k);
      assert History(t.audit, k) == History(s.audit, k);
    }
  }

  lemma StatusKeepsInv(start: map<string, Status>, s: State, c: Command)
    requires Inv(start, s) && c.SetStatus?
    ensures Inv(start, Step(s, c))
  {
    var reason := Collapse(Trim(c.reason));
    if GoodReason(reason) && c.person in s.people {
      StatusLogged(start, s, c.person, c.status, StatusSet(c.person, s.people[c.person], c.status, c.actor, reason));
    }
  }

  lemma AddKeepsInv(start: map<string, Status>, s: State, c: Command)
    requires Inv(start, s) && c.AddPerson?
    ensures Inv(start, Step(s, c))
  {
    forall k
      ensures KeyInv(Step(s, c), k)
    {
      assert KeyInv(s, k);
    }
  }

  lemma {:induction false} ExecKeepsInv(start: map<string, Status>, s: State, commands: seq<Command>)
    requires Inv(start, s)
    ensures Inv(start, Exec(s, commands))
  {
    if commands != [] {
      var front, c := commands[..|commands| - 1], commands[|commands| - 1];
      ExecKeepsInv(start, s, front);
      var t := Exec(s, front);
      match c
      case SetPermission(_, _, _, _, _) => PermissionKeepsInv(start, t, c);
      case SetStatus(_, _, _, _) => StatusKeepsInv(start, t, c);
      case AddPerson(_) => AddKeepsInv(start, t, c);
    }
  }

  /** No grant and nothing logged yet; the people may have any status. */
  function Fresh(people: map<string, Status>): State {
    State(people, map[], [])
  }

  /**
   * After any commands the grant table is the replay of the audit log, the log
   * of one person and permission strictly alternates from granted, and no grant
   * was logged while the person was restricted.
   */
  lemma TableIsReplayOfAudit(people: map<string, Status>, commands: seq<Command>)
    ensures var s := Exec(Fresh(people), commands);
      && s.grants == Replay(s.audit)
      && (forall key :: Alternates(History(s.audit, key)))
      && (forall i :: 0 <= i < |s.audit| ==> GrantedWhileActive(people, s.audit, i))
  {
    FreshInv(people);
    ExecKeepsInv(people, Fresh(people), commands);
    var s := Exec(Fresh(people), commands);
    forall key
      ensures Alternates(History(s.audit, key))
    {
      assert KeyInv(s, key);
    }
  }

  lemma FreshInv(people: map<string, Status>)
    ensures Inv(people, Fresh(people))
  {
    forall key
      ensures KeyInv(Fresh(people), key)
    {}
  }

  predicate HasPermission(s: State, person: string, permission: string) {
    (person, permission) in s.grants && person in s.people && s.people[person] == Active
  }

  /** The log's last word on this permission is granted and the person is not restricted. */
  ghost predicate LogAllows(start: map<string, Status>, audit: seq<Audit>, person: string, permission: string) {
    var history := History(audit, (person, permission));
    history != [] && history[|history| - 1] && StatusAfter(start, audit, person) == Active
  }

  lemma LastWord(start: map<string, Status>, s: State, person: string, permission: string)
    requires Inv(start, s) && person in s.people
    ensures HasPermission(s, person, permission) <==> LogAllows(start, s.audit, person, permission)
  {
    assert KeyInv(s, (person, permission));
  }

  /** A permission is in force exactly when the log says so. */
  lemma PermissionIsLastWord(people: map<string, Status>, commands: seq<Command>, person: string, permission: string)
    requires person in Exec(Fresh(people), commands).people
    ensures var s := Exec(Fresh(people), commands);
      HasPermission(s, person, permission) <==> LogAllows(people, s.audit, person, permission)
  {
    FreshInv(people);
    ExecKeepsInv(people, Fresh(people), commands);
    LastWord(people, Exec(Fresh(people), commands), person, permission);
  }

  // ---- The service ----

  class AccountPermissions {
    var people: map<string, Status>
    var grants: map<Key, Grant>
    var audit: seq<Audit>

    ghost function View(): State
      reads this
    {
      State(people, grants, audit)
    }

    method RecordPermissionAudit(key: Key, enabled: bool, actor: Actor, reason: Text)
      modifies this`audit
      ensures audit == old(audit) + [PermissionSet(key, enabled, actor, reason)]
    {
      audit := audit + [PermissionSet(key, enabled, actor, reason)];
    }

    method SetAccountPermission(person: string, permission: string, enabled: bool, actor: Actor, reason: Text)
      returns (reply: Reply)
      modifies this
      ensures (View(), reply) == SetPermissionOf(old(View()), SetPermission(person, permission, enabled, actor, reason))
      ensures reply == Refused(400) <==> |Trim(reason)| < 3 || |Trim(reason)| > 500
      ensures reply == Refused(404) <==> 3 <= |Trim(reason)| <= 500 && person !in old(people)
      ensures reply == Refused(409) <==>
        3 <= |Trim(reason)| <= 500 && person in old(people) && enabled && old(people)[person] == Restricted
      ensures reply.Done? || (reply.Refused? && View() == old(View()))
      ensures reply.Done? ==>
        && people == old(people) && reply.enabled == enabled
        && ((person, permission) in grants <==> enabled)
        && (forall k :: k != (person, permission) ==> (k in grants <==> k in old(grants)))
        && (forall k <- grants ::
              grants[k] == if k in old(grants) then old(grants)[k] else Grant(actor, Trim(reason)))
        && audit == old(audit) + (if enabled == ((person, permission) in old(grants)) then []
                                  else [PermissionSet((person, permission), enabled, actor, Trim(reason))])
    {
      var trimmed := Trim(reason);
      if |trimmed| < 3 || |trimmed| > 500 {
        return Refused(400);
      }
      if person !in people {
        return Refused(404);
      }
      if enabled && people[person] != Active {
        return Refused(409);
      }
      var key: Key := (person, permission);
      var changed := enabled != (key in grants);
      if enabled {
        // Insert, and on conflict do nothing.
        grants := if key in grants then grants else grants[key := Grant(actor, trimmed)];
      } else {
        grants := grants - {key};
        assert !changed ==> grants == old(grants);
      }
      if changed {
        RecordPermissionAudit(key, enabled, actor, trimmed);
      }
      return Done(enabled);
    }

    /** Restricting and restoring; a missing person is the source's null, written here as 404. */
    method SetAcquisitionStatus(person: string, status: Status, actor: Actor, reason: Text) returns (reply: Reply)
      modifies this`people, this`audit
      ensures View() == Step(old(View()), SetStatus(person, status, actor, reason))
      ensures reply.Throws? <==> !GoodReason(Collapse(Trim(reason)))
      ensures reply.Refused? <==> GoodReason(Collapse(Trim(reason))) && person !in old(people)
      ensures reply.Throws? <==> |Collapse(Trim(reason))| < 3 || |Collapse(Trim(reason))| > 500
      ensures !reply.Done? ==> View() == old(View())
      ensures reply.Done? ==>
        && person in old(people) && people == old(people)[person := status]
        && reply.enabled == (status == Active)
        && audit == old(audit) + [StatusSet(person, old(people)[person], status, actor, Collapse(Trim(reason)))]
    {
      var normalized := Collapse(Trim(reason));
      if |normalized| < 3 || |normalized| > 500 {
        return Throws;
      }
      if person !in people {
        return Refused(404);
      }
      var before := people[person];
      people := people[person := status];
      audit := audit + [StatusSet(person, before, status, actor, normalized)];
      return Done(status == Active);
    }

    method PersonHasAccountPermission(person: string, permission: string) returns (allowed: bool)
      ensures allowed == HasPermission(View(), person, permission)
      ensures allowed <==> (person, permission) in grants && person in people && people[person] == Active
    {
      allowed := (person, permission) in grants && person in people && people[person] == Active;
    }

    /** The rows come ordered by permission; each person's list keeps that order. */
    method AccountPermissionsForPeople(rows: seq<Key>) returns (permissions: map<string, seq<string>>)
      ensures forall p :: p in permissions <==> exists row <- rows :: row.0 == p
      ensures forall p <- permissions :: permissions[p] == PermissionsOf(rows, p)
    {
      permissions := map[];
      for i := 0 to |rows|
        invariant forall p :: p in permissions <==> PermissionsOf(rows[..i], p) != []
        invariant forall p <- permissions :: permissions[p] == PermissionsOf(rows[..i], p)
      {
        assert rows[..i + 1][..i] == rows[..i];
        var current := if rows[i].0 in permissions then permissions[rows[i].0] else [];
        permissions := permissions[rows[i].0 := current + [rows[i].1]];
      }
      assert rows[..|rows|] == rows;
      forall p
        ensures PermissionsOf(rows, p) != [] <==> exists row <- rows :: row.0 == p
      {
        PermissionsOfNobody(rows, p);
      }
    }
  }

  function PermissionsOf(rows: seq<Key>, person: string): seq<string> {
    if rows == [] then []
    else PermissionsOf(rows[..|rows| - 1], person) + if rows[|rows| - 1].0 == person then [rows[|rows| - 1].1] else []
  }

  /** A list of rows gives what its parts give, in their order; one row gives its permission to its person only. */
  lemma {:induction false} PermissionsOfParts(a: seq<Key>, b: seq<Key>, row: Key, person: string)
    ensures PermissionsOf(a + b, person) == PermissionsOf(a, person) + PermissionsOf(b, person)
    ensures PermissionsOf([row], person) == if row.0 == person then [row.1] else []
  {
    assert [row][..0] == [];
    if b == [] {
      assert a + b == a;
    } else {
      assert (a + b)[..|a + b| - 1] == a + b[..|b| - 1];
      PermissionsOfParts(a, b[..|b| - 1], row, person);
    }
  }

  lemma {:induction false} PermissionsOfNobody(rows: seq<Key>, person: string)
    ensures PermissionsOf(rows, person) != [] <==> exists row <- rows :: row.0 == person
  {
    if rows != [] {
      PermissionsOfNobody(rows[..|rows| - 1], person);
      assert rows == rows[..|rows| - 1] + [rows[|rows| - 1]];
    }
  }
}
