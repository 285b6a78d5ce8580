/** Ghost mode's dual approval: a request by an administrator becomes an active token only
    through a second person, over any sequence of commands and any group changes. */
module Ghost {

  // ----- names ------------------------------------------------------------------------

  predicate HasDotDot(s: string) {
    exists i :: 0 <= i < |s| - 1 && s[i] == '.' && s[i + 1] == '.'
  }

  predicate ValidName(s: string) {
    '/' !in s && '\\' !in s && !HasDotDot(s)
  }

  /** The id of an empty user and an empty profile; as a file name it is the directory itself, so
      that a token of this name cannot be written. */
  const DOT := "."

  function IdOf(user: string, profile: string): string {
    user + "." + profile
  }

  /** `(user', profile')` cuts the same text at a later dot than `(user, profile)`. */
  ghost predicate CutsLater(user: string, profile: string, user': string, profile': string) {
    exists mid :: CutsLaterAt(user, profile, user', profile', mid)
  }

  ghost predicate CutsLaterAt(user: string, profile: string, user': string, profile': string, mid: string) {
    user' == user + "." + mid && profile == mid + "." + profile'
  }

  /** Two requests share an id exactly when they are equal or cut it at different dots. */
  lemma SameIdExactly(user: string, profile: string, user': string, profile': string)
    ensures IdOf(user, profile) == IdOf(user', profile') <==>
            (user == user' && profile == profile')
            || CutsLater(user, profile, user', profile') || CutsLater(user', profile', user, profile)
  {
    if IdOf(user, profile) == IdOf(user', profile') {
      if |user| <= |user'| {
        LaterCut(user, profile, user', profile');
      } else {
        LaterCut(user', profile', user, profile);
      }
    }
    forall mid | CutsLaterAt(user, profile, user', profile', mid) ensures IdOf(user, profile) == IdOf(user', profile') {
      assert IdOf(user, profile) == user + "." + (mid + "." + profile') == IdOf(user', profile');
    }
    forall mid | CutsLaterAt(user', profile', user, profile, mid) ensures IdOf(user, profile) == IdOf(user', profile') {
      assert IdOf(user', profile') == user' + "." + (mid + "." + profile) == IdOf(user, profile);
    }
  }

  lemma LaterCut(user: string, profile: string, user': string, profile': string)
    requires IdOf(user, profile) == IdOf(user', profile') && |user| <= |user'|
    ensures (user == user' && profile == profile') || CutsLater(user, profile, user', profile')
  {
    var id := IdOf(user, profile);
    assert user == id[..|user|] && profile == id[|user| + 1..];
    assert user' == id[..|user'|] && profile' == id[|user'| + 1..];
    if |user| < |user'| {
      var mid := id[|user| + 1..|user'|];
      assert id[|user|] == '.' && id[|user'|] == '.';
      assert CutsLaterAt(user, profile, user', profile', mid);
    }
  }

  // ----- the file store, commands atomic -------------------------------------------------

  datatype Request = Request(id: string, user: string, profile: string, requester: string)

  datatype Token = Token(request: Request, approver: string)

  /** The pending and active directories: request id to file contents. */
  datatype Store = Store(pending: map<string, Request>, active: map<string, Token>)

  /** `Failed`: the file operation itself raised. */
  datatype Outcome = Done | Refused | BadParameter | NotFound | Failed

  datatype Entry = Missing | PlainFile | Directory

  /** What a `disable` argument names: a plain id names an active token; a path can lead to the
      pending directory or to any other entry of the file system. */
  datatype Target = ActiveFile(id: string) | PendingFile(id: string) | Elsewhere(entry: Entry)

  /** A command with the members, at its time, of the group it checks. */
  datatype Command =
    | Enable(admins: set<string>, requester: string, user: string, profile: string)
    | Approve(approvers: set<string>, approver: string, id: string)
    | Disable(admins: set<string>, actor: string, target: Target)

  function RequestOf(c: Command): Request
    requires c.Enable?
  {
    Request(IdOf(c.user, c.profile), c.user, c.profile, c.requester)
  }

  function Executed(s: Store, c: Command): (Store, Outcome) {
    match c
    case Enable(admins, requester, user, profile) =>
      if requester !in admins then (s, Refused)
      else if !ValidName(user) || !ValidName(profile) then (s, BadParameter)
      else (s.(pending := s.pending[IdOf(user, profile) := RequestOf(c)]), Done)
    case Approve(approvers, approver, id) =>
      if approver !in approvers then (s, Refused)
      else if !ValidName(id) then (s, BadParameter)
      else if id !in s.pending then (s, NotFound)
      else if s.pending[id].requester == approver then (s, Refused)
      else if IdOf(s.pending[id].user, s.pending[id].profile) == DOT then (s, Failed)
      else
        var r := s.pending[id];
        (Store(s.pending - {id}, s.active[IdOf(r.user, r.profile) := Token(r, approver)]), Done)
    case Disable(admins, actor, target) =>
      if actor !in admins then (s, Refused)
      else
        match target
        case ActiveFile(id) => if id in s.active then (s.(active := s.active - {id}), Done) else (s, NotFound)
        case PendingFile(id) => if id in s.pending then (s.(pending := s.pending - {id}), Done) else (s, NotFound)
        case Elsewhere(entry) => (s, RemovalOf(entry))
  }

  function RemovalOf(entry: Entry): Outcome {
    match entry
    case Missing => NotFound
    case PlainFile => Done
    case Directory => Failed
  }

  class GhostStore {
    var pending: map<string, Request>
    var active: map<string, Token>

    ghost function View(): Store
      reads this
    {
      Store(pending, active)
    }

    constructor ()
      ensures View() == Store(map[], map[])
    {
      pending, active := map[], map[];
    }

    method Enable(admins: set<string>, requester: string, user: string, profile: string) returns (o: Outcome)
      modifies this
      ensures (View(), o) == Executed(old(View()), Command.Enable(admins, requester, user, profile))
    {
      if requester !in admins {
        return Refused;
      }
      if !ValidName(user) {
        return BadParameter;
      }
      if !ValidName(profile) {
        return BadParameter;
      }
      var id := user + "." + profile;
      pending := pending[id := Request(id, user, profile, requester)];
      return Done;
    }

    method Approve(approvers: set<string>, approver: string, id: string) returns (o: Outcome)
      modifies this
      ensures (View(), o) == Executed(old(View()), Command.Approve(approvers, approver, id))
    {
      if approver !in approvers {
        return Refused;
      }
      if !ValidName(id) {
        return BadParameter;
      }
      if id !in pending {
        return NotFound;
      }
      var req := pending[id];
      if req.requester == approver {
        return Refused;
      }
      if req.user + "." + req.profile == DOT {
        return Failed;
      }
      active := active[IdOf(req.user, req.profile) := Token(req, approver)];
      pending := pending - {id};
      return Done;
    }

    method Disable(admins: set<string>, actor: string, target: Target) returns (o: Outcome)
      modifies this
      ensures (View(), o) == Executed(old(View()), Command.Disable(admins, actor, target))
    {
      if actor !in admins {
        return Refused;
      }
      match target
      case ActiveFile(id) =>
        if id !in active {
          return NotFound;
        }
        active := active - {id};
        return Done;
      case PendingFile(id) =>
        if id !in pending {
          return NotFound;
        }
        pending := pending - {id};
        return Done;
      case Elsewhere(entry) =>
        return RemovalOf(entry);
    }

    /** The launcher's guard: a token file of the right name exists. */
    method MayLaunch(user: string, profile: string) returns (ok: bool)
      ensures ok <==> IdOf(user, profile) in View().active
    {
      ok := user + "." + profile in active;
    }
  }

  /** The text holds neither kind of slash nor two dots in a row. */
  ghost predicate SafeName(s: string) {
    '/' !in s && '\\' !in s && forall a: string, b: string :: s != a + ".." + b
  }

  lemma ValidNameExactly(s: string)
    ensures ValidName(s) <==> SafeName(s)
  {
    if HasDotDot(s) {
      var i :| 0 <= i < |s| - 1 && s[i] == '.' && s[i + 1] == '.';
      assert s == s[..i] + ".." + s[i + 2..];
    }
    forall a: string, b: string | s == a + ".." + b ensures HasDotDot(s) {
      assert s[|a|] == '.' && s[|a| + 1] == '.';
    }
  }

  /** What each command needs to succeed; one that does not succeed changes nothing. */
  lemma DoneExactly(s: Store, c: Command)
    ensures Executed(s, c).1 != Done ==> Executed(s, c).0 == s
    ensures c.Enable? ==>
      (Executed(s, c).1 == Done <==> c.requester in c.admins && SafeName(c.user) && SafeName(c.profile))
    ensures c.Approve? ==>
      (Executed(s, c).1 == Done <==>
        && c.approver in c.approvers && SafeName(c.id) && c.id in s.pending
        && s.pending[c.id].requester != c.approver
        && s.pending[c.id].user + "." + s.pending[c.id].profile != ".")
    ensures c.Disable? ==>
      (Executed(s, c).1 == Done <==>
        && c.actor in c.admins
        && match c.target
           case ActiveFile(id) => id in s.active
           case PendingFile(id) => id in s.pending
           case Elsewhere(entry) => entry == PlainFile)
  {
    if c.Enable? {
      ValidNameExactly(c.user);
      ValidNameExactly(c.profile);
    } else if c.Approve? {
      ValidNameExactly(c.id);
    }
  }

  /** Which failure is reported: no member first, then the name, then the file, then the person. */
  lemma FailureExactly(s: Store, c: Command)
    ensures c.Enable? && c.requester !in c.admins ==> Executed(s, c).1 == Refused
    ensures c.Enable? && c.requester in c.admins && !(SafeName(c.user) && SafeName(c.profile)) ==>
      Executed(s, c).1 == BadParameter
    ensures c.Approve? && c.approver !in c.approvers ==> Executed(s, c).1 == Refused
    ensures c.Approve? && c.approver in c.approvers && !SafeName(c.id) ==> Executed(s, c).1 == BadParameter
    ensures c.Approve? && c.approver in c.approvers && SafeName(c.id) && c.id !in s.pending ==>
      Executed(s, c).1 == NotFound
    ensures c.Approve? && c.id in s.pending && SafeName(c.id) && s.pending[c.id].requester == c.approver ==>
      Executed(s, c).1 == Refused
    ensures c.Disable? && c.actor !in c.admins ==> Executed(s, c).1 == Refused
    ensures c.Disable? && c.actor in c.admins && Executed(s, c).1 == NotFound ==>
      match c.target
      case ActiveFile(id) => id !in s.active
      case PendingFile(id) => id !in s.pending
      case Elsewhere(entry) => entry == Missing
  {
    if c.Enable? {
      ValidNameExactly(c.user);
      ValidNameExactly(c.profile);
    } else if c.Approve? {
      ValidNameExactly(c.id);
    }
  }

  // ----- whole runs -----------------------------------------------------------------------

  function After(cmds: seq<Command>, n: nat): Store
    requires n <= |cmds|
  {
    if n == 0 then Store(map[], map[]) else Executed(After(cmds, n - 1), cmds[n - 1]).0
  }

  /** `c` is an enable for `id` by a then-administrator, with legal names. */
  predicate Requests(c: Command, id: string) {
    c.Enable? && c.requester in c.admins && ValidName(c.user) && ValidName(c.profile) && IdOf(c.user, c.profile) == id
  }

  /** `c` is an approve for `id` by a then-approver other than `requester`. */
  predicate Approves(c: Command, id: string, requester: string) {
    c.Approve? && c.id == id && c.approver in c.approvers && ValidName(id) && c.approver != requester && id != DOT
  }

  predicate Removes(c: Command, target: Target) {
    c.Disable? && c.actor in c.admins && c.target == target
  }

  /** Of the first `n` commands, the `i`-th requests `id` and nothing since has replaced,
      approved or removed that request. */
  ghost predicate PendingSince(cmds: seq<Command>, n: nat, id: string, i: nat) {
    && i < n <= |cmds| && Requests(cmds[i], id)
    && forall k :: i < k < n ==>
         !Requests(cmds[k], id) && !Approves(cmds[k], id, cmds[i].requester) && !Removes(cmds[k], PendingFile(id))
  }

  /** The `j`-th command approves the request made by the `i`-th, the latest one for `id`. */
  ghost predicate ApprovedAt(cmds: seq<Command>, id: string, i: nat, j: nat) {
    j < |cmds| && PendingSince(cmds, j, id, i) && Approves(cmds[j], id, cmds[i].requester)
  }

  ghost predicate SomeApprovalAt(cmds: seq<Command>, id: string, j: nat) {
    exists i: nat :: ApprovedAt(cmds, id, i, j)
  }

  /** Of the first `n` commands, the `j`-th approved the `i`-th's request for `id`, and since
      then nobody disabled `id` and nothing else was approved under it. */
  ghost predicate ActiveSince(cmds: seq<Command>, n: nat, id: string, i: nat, j: nat) {
    && j < n <= |cmds| && ApprovedAt(cmds, id, i, j)
    && forall k: nat :: j < k < n ==> !Removes(cmds[k], ActiveFile(id)) && !SomeApprovalAt(cmds, id, k)
  }

  lemma {:induction false} PendingExactly(cmds: seq<Command>, n: nat, id: string)
    requires n <= |cmds|
    ensures id in After(cmds, n).pending <==> exists i: nat :: PendingSince(cmds, n, id, i)
    ensures forall i: nat :: PendingSince(cmds, n, id, i) ==>
      id in After(cmds, n).pending && After(cmds, n).pending[id] == RequestOf(cmds[i])
  {
    if n > 0 {
      PendingExactly(cmds, n - 1, id);
      StepPending(cmds, n, id);
      var s, c := After(cmds, n - 1), cmds[n - 1];
      forall i: nat | PendingSince(cmds, n, id, i)
        ensures id in After(cmds, n).pending && After(cmds, n).pending[id] == RequestOf(cmds[i])
      {
        if i < n - 1 {
          assert PendingSince(cmds, n - 1, id, i);
        }
      }
      if Requests(c, id) {
        assert PendingSince(cmds, n, id, n - 1);
      } else if id in After(cmds, n).pending {
        var i: nat :| PendingSince(cmds, n - 1, id, i);
        assert PendingSince(cmds, n, id, i);
      }
    }
  }

  /** A request is filed under its own name. */
  lemma {:induction false} FiledUnderItsName(cmds: seq<Command>, n: nat)
    requires n <= |cmds|
    ensures forall id :: id in After(cmds, n).pending ==>
      IdOf(After(cmds, n).pending[id].user, After(cmds, n).pending[id].profile) == id
  {
    if n > 0 {
      FiledUnderItsName(cmds, n - 1);
    }
  }

  lemma StepPending(cmds: seq<Command>, n: nat, id: string)
    requires 0 < n <= |cmds|
    ensures var before, after, c := After(cmds, n - 1).pending, After(cmds, n).pending, cmds[n - 1];
      && (id in after <==>
            Requests(c, id)
            || (id in before && !Approves(c, id, before[id].requester) && !Removes(c, PendingFile(id))))
      && (id in after ==> after[id] == if Requests(c, id) then RequestOf(c) else before[id])
  {
    FiledUnderItsName(cmds, n - 1);
  }

  lemma ActiveUnfolds(cmds: seq<Command>, n: nat, id: string, i: nat, j: nat)
    requires 0 < n <= |cmds|
    ensures ActiveSince(cmds, n, id, i, j) <==>
      if j == n - 1 then ApprovedAt(cmds, id, i, j)
      else
        && ActiveSince(cmds, n - 1, id, i, j)
        && !Removes(cmds[n - 1], ActiveFile(id)) && !SomeApprovalAt(cmds, id, n - 1)
  {
  }

  lemma {:induction false} ApprovedIsActive(cmds: seq<Command>, n: nat, id: string, i: nat, j: nat)
    requires n <= |cmds| && ActiveSince(cmds, n, id, i, j)
    ensures id in After(cmds, n).active && After(cmds, n).active[id] == Token(RequestOf(cmds[i]), cmds[j].approver)
  {
    ActiveUnfolds(cmds, n, id, i, j);
    StepActive(cmds, n, id);
    if j < n - 1 {
      ApprovedIsActive(cmds, n - 1, id, i, j);
    }
  }

  lemma {:induction false} ActiveWasApproved(cmds: seq<Command>, n: nat, id: string) returns (i: nat, j: nat)
    requires n <= |cmds| && id in After(cmds, n).active
    ensures ActiveSince(cmds, n, id, i, j)
  {
    StepActive(cmds, n, id);
    if SomeApprovalAt(cmds, id, n - 1) {
      j := n - 1;
      i :| ApprovedAt(cmds, id, i, j);
    } else {
      i, j := ActiveWasApproved(cmds, n - 1, id);
    }
    ActiveUnfolds(cmds, n, id, i, j);
  }

  /** Dual approval. A token is active exactly when its latest request, by a then-member of the
      administrators, was later approved by a then-member of the approvers who is not the
      requester, with no disable and no other approval since; and it names these two people. */
  lemma DualApproval(cmds: seq<Command>, n: nat, id: string)
    requires n <= |cmds|
    ensures id in After(cmds, n).active <==> exists i: nat, j: nat :: ActiveSince(cmds, n, id, i, j)
    ensures forall i: nat, j: nat :: ActiveSince(cmds, n, id, i, j) ==>
      After(cmds, n).active[id] == Token(RequestOf(cmds[i]), cmds[j].approver)
  {
    forall i: nat, j: nat | ActiveSince(cmds, n, id, i, j)
      ensures id in After(cmds, n).active && After(cmds, n).active[id] == Token(RequestOf(cmds[i]), cmds[j].approver)
    {
      ApprovedIsActive(cmds, n, id, i, j);
    }
    if id in After(cmds, n).active {
      var i, j := ActiveWasApproved(cmds, n, id);
    }
  }

  lemma StepActive(cmds: seq<Command>, n: nat, id: string)
    requires 0 < n <= |cmds|
    ensures var before, after, c := After(cmds, n - 1).active, After(cmds, n).active, cmds[n - 1];
      && (SomeApprovalAt(cmds, id, n - 1) ==> id in after)
      && (forall i: nat :: ApprovedAt(cmds, id, i, n - 1) ==>
            id in after && after[id] == Token(RequestOf(cmds[i]), c.approver))
      && (!SomeApprovalAt(cmds, id, n - 1) ==>
            && (id in after <==> id in before && !Removes(c, ActiveFile(id)))
            && (id in after ==> after[id] == before[id]))
  {
    var s, c := After(cmds, n - 1), cmds[n - 1];
    if c.Approve? {
      PendingExactly(cmds, n - 1, c.id);
      FiledUnderItsName(cmds, n - 1);
      if c.id in s.pending {
        var i: nat :| PendingSince(cmds, n - 1, c.id, i);
        assert s.pending[c.id] == RequestOf(cmds[i]);
        assert Approves(c, c.id, cmds[i].requester) ==> ApprovedAt(cmds, c.id, i, n - 1);
      }
    }
  }

  /** An active token tells who asked for what and who agreed, as they did, in safe names. */
  lemma TokenTells(cmds: seq<Command>, n: nat, id: string) returns (i: nat, j: nat)
    requires n <= |cmds| && id in After(cmds, n).active
    ensures i < j < n && cmds[i].Enable? && cmds[j].Approve? && cmds[j].id == id
    ensures cmds[i].requester in cmds[i].admins && cmds[j].approver in cmds[j].approvers
    ensures cmds[i].requester != cmds[j].approver
    ensures var token := After(cmds, n).active[id];
      && token.request.id == id == cmds[i].user + "." + cmds[i].profile && id != "."
      && token.request.user == cmds[i].user && token.request.profile == cmds[i].profile
      && token.request.requester == cmds[i].requester && token.approver == cmds[j].approver
      && SafeName(token.request.user) && SafeName(token.request.profile) && SafeName(id)
  {
    i, j := ActiveWasApproved(cmds, n, id);
    ApprovedIsActive(cmds, n, id, i, j);
    ValidNameExactly(cmds[i].user);
    ValidNameExactly(cmds[i].profile);
    ValidNameExactly(id);
  }

  /** Nothing pending or active ever has a slash or two dots in its names. */
  lemma PendingNamesAreSafe(cmds: seq<Command>, n: nat, id: string)
    requires n <= |cmds| && id in After(cmds, n).pending
    ensures var r := After(cmds, n).pending[id];
      r.id == id == r.user + "." + r.profile && SafeName(r.user) && SafeName(r.profile)
  {
    PendingExactly(cmds, n, id);
    var i: nat :| PendingSince(cmds, n, id, i);
    ValidNameExactly(cmds[i].user);
    ValidNameExactly(cmds[i].profile);
  }

  /** No one approves their own request, at any time. */
  lemma NoSelfApproval(cmds: seq<Command>, n: nat, id: string)
    requires n <= |cmds| && id in After(cmds, n).active
    ensures After(cmds, n).active[id].approver != After(cmds, n).active[id].request.requester
  {
    DualApproval(cmds, n, id);
    var i: nat, j: nat :| ActiveSince(cmds, n, id, i, j);
  }

  /** An id names one user and profile only exactly when neither of them has a dot. */
  lemma UnambiguousExactly(user: string, profile: string)
    ensures (forall u, p :: IdOf(u, p) == IdOf(user, profile) ==> u == user && p == profile)
            <==> '.' !in user && '.' !in profile
  {
    if '.' in user {
      var i :| 0 <= i < |user| && user[i] == '.';
      var mid := user[i + 1..];
      assert user == user[..i] + "." + mid;
      assert CutsLaterAt(user[..i], mid + "." + profile, user, profile, mid);
      SameIdExactly(user[..i], mid + "." + profile, user, profile);
    } else if '.' in profile {
      var i :| 0 <= i < |profile| && profile[i] == '.';
      var mid := profile[..i];
      assert profile == mid + "." + profile[i + 1..];
      assert CutsLaterAt(user, profile, user + "." + mid, profile[i + 1..], mid);
      SameIdExactly(user, profile, user + "." + mid, profile[i + 1..]);
    } else {
      forall u, p | IdOf(u, p) == IdOf(user, profile) ensures u == user && p == profile {
        SameIdExactly(u, p, user, profile);
        NoLaterCut(u, p, user, profile);
        NoLaterCut(user, profile, u, p);
      }
    }
  }

  lemma NoLaterCut(user: string, profile: string, user': string, profile': string)
    ensures CutsLater(user, profile, user', profile') ==> '.' in user' && '.' in profile
  {
    forall mid | CutsLaterAt(user, profile, user', profile', mid) ensures '.' in user' && '.' in profile {
      assert user'[|user|] == '.' && profile[|mid|] == '.';
    }
  }

  /** The launcher's guard admits exactly an approved request with the same id; without dots in
      the approved names that is a request for this very user and profile. */
  lemma LaunchGuard(cmds: seq<Command>, n: nat, user: string, profile: string)
    requires n <= |cmds| && IdOf(user, profile) in After(cmds, n).active
    ensures var r := After(cmds, n).active[IdOf(user, profile)].request;
      && IdOf(r.user, r.profile) == IdOf(user, profile)
      && ('.' !in r.user && '.' !in r.profile ==> r.user == user && r.profile == profile)
  {
    var id := IdOf(user, profile);
    DualApproval(cmds, n, id);
    var i: nat, j: nat :| ActiveSince(cmds, n, id, i, j);
    var r := After(cmds, n).active[id].request;
    UnambiguousExactly(r.user, r.profile);
  }

  /** With dots the guard also admits a pair that nobody requested. */
  lemma DottedNamesShareToken(admin: string, approver: string)
    requires admin != approver
    ensures var cmds := [Enable({admin}, admin, "a.b", "c"), Approve({approver}, approver, "a.b.c")];
      && IdOf("a", "b.c") in After(cmds, 2).active
      && After(cmds, 2).active[IdOf("a", "b.c")].request.user == "a.b"
  {
    var cmds := [Enable({admin}, admin, "a.b", "c"), Approve({approver}, approver, "a.b.c")];
    assert IdOf("a.b", "c") == "a.b.c" == IdOf("a", "b.c");
    var s1 := After(cmds, 1);
    assert After(cmds, 0) == Store(map[], map[]);
    assert Executed(After(cmds, 0), cmds[0]).1 == Done;
    assert s1.pending["a.b.c"] == Request("a.b.c", "a.b", "c", admin);
    assert Executed(s1, cmds[1]).1 == Done;
  }

  // ----- commands interleaved file operation by file operation ------------------------------

  /** What a concurrent reader finds in a file: nothing usable while it is being written, or
      what one writer wrote. */
  datatype Content<T> = Torn | Whole(value: T)

  /** How a write ends: intact, mixed with another writer's, or on a file already unlinked. */
  datatype Fate = Landed | Garbled | Unlinked

  type Pid = nat

  /** How far one running command is. */
  datatype Process =
    | Requesting(request: Request)
    | PendingOpen(request: Request)
    | Approving(approver: string, id: string)
    | HasRead(approver: string, id: string, request: Request)
    | ActiveOpen(approver: string, id: string, request: Request)
    | HasWritten(id: string)
    | Disabling(target: Target)
    | Ended

  datatype Files = Files(
    pending: map<string, Content<Request>>,
    active: map<string, Content<Token>>,
    procs: map<Pid, Process>)

  datatype FileStep =
    | StartEnable(p: Pid, admins: set<string>, requester: string, user: string, profile: string)
    | OpenPending(p: Pid)
    | WritePending(p: Pid, fate: Fate)
    | StartApprove(p: Pid, approvers: set<string>, approver: string, id: string)
    | ReadPending(p: Pid)
    | OpenActive(p: Pid)
    | WriteActive(p: Pid, fate: Fate)
    | UnlinkPending(p: Pid)
    | StartDisable(p: Pid, admins: set<string>, actor: string, target: Target)
    | UnlinkTarget(p: Pid)

  predicate CanTake(f: Files, t: FileStep) {
    match t
    case StartEnable(p, admins, requester, user, profile) =>
      p !in f.procs && requester in admins && ValidName(user) && ValidName(profile)
    case OpenPending(p) => p in f.procs && f.procs[p].Requesting?
    case WritePending(p, _) => p in f.procs && f.procs[p].PendingOpen?
    case StartApprove(p, approvers, approver, id) => p !in f.procs && approver in approvers && ValidName(id)
    case ReadPending(p) => p in f.procs && f.procs[p].Approving?
    case OpenActive(p) => p in f.procs && f.procs[p].HasRead?
    case WriteActive(p, _) => p in f.procs && f.procs[p].ActiveOpen?
    case UnlinkPending(p) => p in f.procs && f.procs[p].HasWritten?
    case StartDisable(p, admins, actor, _) => p !in f.procs && actor in admins
    case UnlinkTarget(p) => p in f.procs && f.procs[p].Disabling?
  }

  function Written<T>(dir: map<string, Content<T>>, name: string, value: T, fate: Fate): map<string, Content<T>> {
    match fate
    case Landed => dir[name := Whole(value)]
    case Garbled => dir[name := Torn]
    case Unlinked => dir
  }

  function Taken(f: Files, t: FileStep): Files
    requires CanTake(f, t)
  {
    match t
    case StartEnable(p, _, requester, user, profile) =>
      f.(procs := f.procs[p := Requesting(Request(IdOf(user, profile), user, profile, requester))])
    case OpenPending(p) =>
      var r := f.procs[p].request;
      f.(pending := f.pending[r.id := Torn], procs := f.procs[p := PendingOpen(r)])
    case WritePending(p, fate) =>
      var r := f.procs[p].request;
      f.(pending := Written(f.pending, r.id, r, fate), procs := f.procs[p := Ended])
    case StartApprove(p, _, approver, id) => f.(procs := f.procs[p := Approving(approver, id)])
    case ReadPending(p) =>
      var Approving(approver, id) := f.procs[p];
      var next :=
        if id in f.pending && f.pending[id].Whole? && f.pending[id].value.requester != approver then
          HasRead(approver, id, f.pending[id].value)
        else Ended;
      f.(procs := f.procs[p := next])
    case OpenActive(p) =>
      var HasRead(approver, id, r) := f.procs[p];
      if IdOf(r.user, r.profile) == DOT then f.(procs := f.procs[p := Ended])
      else f.(active := f.active[IdOf(r.user, r.profile) := Torn], procs := f.procs[p := ActiveOpen(approver, id, r)])
    case WriteActive(p, fate) =>
      var ActiveOpen(approver, id, r) := f.procs[p];
      f.(active := Written(f.active, IdOf(r.user, r.profile), Token(r, approver), fate),
         procs := f.procs[p := HasWritten(id)])
    case UnlinkPending(p) => f.(pending := f.pending - {f.procs[p].id}, procs := f.procs[p := Ended])
    case StartDisable(p, _, _, target) => f.(procs := f.procs[p := Disabling(target)])
    case UnlinkTarget(p) =>
      var ended := f.(procs := f.procs[p := Ended]);
      match f.procs[p].target
      case ActiveFile(id) => ended.(active := f.active - {id})
      case PendingFile(id) => ended.(pending := f.pending - {id})
      case Elsewhere(_) => ended
  }

  ghost predicate Interleaving(steps: seq<FileStep>, states: seq<Files>) {
    && |states| == |steps| + 1 && states[0] == Files(map[], map[], map[])
    && forall i :: 0 <= i < |steps| ==> FileLinked(steps, states, i)
  }

  ghost predicate FileLinked(steps: seq<FileStep>, states: seq<Files>, i: int) {
    0 <= i < |steps| && i + 1 < |states| && CanTake(states[i], steps[i]) && states[i + 1] == Taken(states[i], steps[i])
  }

  /** Some enable in the first `n` steps made this request, its author then an administrator. */
  ghost predicate WasRequested(steps: seq<FileStep>, n: nat, r: Request) {
    exists i: nat :: RequestedAt(steps, n, r, i)
  }

  ghost predicate RequestedAt(steps: seq<FileStep>, n: nat, r: Request, i: nat) {
    && i < n <= |steps| && steps[i].StartEnable? && steps[i].requester in steps[i].admins
    && r == Request(IdOf(steps[i].user, steps[i].profile), steps[i].user, steps[i].profile, steps[i].requester)
  }

  /** Some approve for `id` in the first `n` steps was by this approver, then a member. */
  ghost predicate WasVetted(steps: seq<FileStep>, n: nat, approver: string, id: string) {
    exists i: nat :: VettedAt(steps, n, approver, id, i)
  }

  ghost predicate VettedAt(steps: seq<FileStep>, n: nat, approver: string, id: string, i: nat) {
    i < n <= |steps| && steps[i].StartApprove? && steps[i].approver == approver && steps[i].id == id &&
    approver in steps[i].approvers
  }

  ghost predicate Sound(steps: seq<FileStep>, n: nat, r: Request, approver: string) {
    approver != r.requester && WasRequested(steps, n, r) && WasVetted(steps, n, approver, r.id)
  }

  ghost predicate SoundProcess(steps: seq<FileStep>, n: nat, p: Process) {
    match p
    case Requesting(r) => WasRequested(steps, n, r)
    case PendingOpen(r) => WasRequested(steps, n, r)
    case Approving(approver, id) => WasVetted(steps, n, approver, id)
    case HasRead(approver, id, r) => r.id == id && Sound(steps, n, r, approver)
    case ActiveOpen(approver, id, r) => r.id == id && Sound(steps, n, r, approver)
    case _ => true
  }

  ghost predicate SoundPending(steps: seq<FileStep>, n: nat, f: Files) {
    forall id :: id in f.pending && f.pending[id].Whole? ==>
      f.pending[id].value.id == id && WasRequested(steps, n, f.pending[id].value)
  }

  ghost predicate SoundActive(steps: seq<FileStep>, n: nat, f: Files) {
    forall id :: id in f.active && f.active[id].Whole? ==>
      f.active[id].value.request.id == id && Sound(steps, n, f.active[id].value.request, f.active[id].value.approver)
  }

  ghost predicate SoundProcesses(steps: seq<FileStep>, n: nat, f: Files) {
    forall p :: p in f.procs ==> SoundProcess(steps, n, f.procs[p])
  }

  ghost predicate SoundFiles(steps: seq<FileStep>, n: nat, f: Files) {
    SoundPending(steps, n, f) && SoundActive(steps, n, f) && SoundProcesses(steps, n, f)
  }

  lemma MoreStepsKeepSound(steps: seq<FileStep>, n: nat, f: Files)
    requires n + 1 <= |steps| && SoundFiles(steps, n, f)
    ensures SoundFiles(steps, n + 1, f)
  {
    forall r | WasRequested(steps, n, r) ensures WasRequested(steps, n + 1, r) {
      var i: nat :| RequestedAt(steps, n, r, i);
      assert RequestedAt(steps, n + 1, r, i);
    }
    forall approver, id | WasVetted(steps, n, approver, id) ensures WasVetted(steps, n + 1, approver, id) {
      var i: nat :| VettedAt(steps, n, approver, id, i);
      assert VettedAt(steps, n + 1, approver, id, i);
    }
  }

  lemma RequestIdIsItsName(steps: seq<FileStep>, n: nat, r: Request)
    requires WasRequested(steps, n, r)
    ensures r.id == IdOf(r.user, r.profile)
  {
  }

  /** Whatever the interleaving, including torn and mixed writes: every readable token names two
      different people, a then-administrator who requested exactly this and a then-approver who
      was approving exactly this id. */
  lemma {:induction false} InterleavedApproval(steps: seq<FileStep>, states: seq<Files>, n: nat)
    requires Interleaving(steps, states) && n <= |steps|
    ensures SoundFiles(steps, n, states[n])
  {
    if n > 0 {
      InterleavedApproval(steps, states, n - 1);
      MoreStepsKeepSound(steps, n - 1, states[n - 1]);
      assert FileLinked(steps, states, n - 1);
      StepKeepsSound(steps, n, states[n - 1]);
    }
  }

  lemma StepKeepsSound(steps: seq<FileStep>, n: nat, f: Files)
    requires 0 < n <= |steps| && SoundFiles(steps, n, f) && CanTake(f, steps[n - 1])
    ensures SoundFiles(steps, n, Taken(f, steps[n - 1]))
  {
    PendingStaysSound(steps, n, f);
    ActiveStaysSound(steps, n, f);
    ProcessesStaySound(steps, n, f);
  }

  lemma PendingStaysSound(steps: seq<FileStep>, n: nat, f: Files)
    requires 0 < n <= |steps| && SoundFiles(steps, n, f) && CanTake(f, steps[n - 1])
    ensures SoundPending(steps, n, Taken(f, steps[n - 1]))
  {
    var t := steps[n - 1];
    forall id | id in Taken(f, t).pending && Taken(f, t).pending[id].Whole?
      ensures Taken(f, t).pending[id].value.id == id && WasRequested(steps, n, Taken(f, t).pending[id].value)
    {
      WholeRequestFrom(f, t, id);
      if t.WritePending? {
        assert SoundProcess(steps, n, f.procs[t.p]);
      }
    }
  }

  /** A readable request was there before, or has just been written by its process. */
  lemma WholeRequestFrom(f: Files, t: FileStep, id: string)
    requires CanTake(f, t) && id in Taken(f, t).pending && Taken(f, t).pending[id].Whole?
    ensures var r := Taken(f, t).pending[id].value;
      || (id in f.pending && f.pending[id] == Whole(r))
      || (t.WritePending? && f.procs[t.p].request == r && r.id == id)
  {
  }

  lemma ActiveStaysSound(steps: seq<FileStep>, n: nat, f: Files)
    requires 0 < n <= |steps| && SoundFiles(steps, n, f) && CanTake(f, steps[n - 1])
    ensures SoundActive(steps, n, Taken(f, steps[n - 1]))
  {
    var t := steps[n - 1];
    forall id | id in Taken(f, t).active && Taken(f, t).active[id].Whole?
      ensures var token := Taken(f, t).active[id].value;
        token.request.id == id && Sound(steps, n, token.request, token.approver)
    {
      WholeTokenFrom(f, t, id);
      if t.WriteActive? {
        assert SoundProcess(steps, n, f.procs[t.p]);
        RequestIdIsItsName(steps, n, f.procs[t.p].request);
      }
    }
  }

  /** A readable token was there before, or has just been written by its process. */
  lemma WholeTokenFrom(f: Files, t: FileStep, id: string)
    requires CanTake(f, t) && id in Taken(f, t).active && Taken(f, t).active[id].Whole?
    ensures var token := Taken(f, t).active[id].value;
      || (id in f.active && f.active[id] == Whole(token))
      || (t.WriteActive? && Token(f.procs[t.p].request, f.procs[t.p].approver) == token
          && IdOf(token.request.user, token.request.profile) == id)
  {
  }

  lemma ProcessesStaySound(steps: seq<FileStep>, n: nat, f: Files)
    requires 0 < n <= |steps| && SoundFiles(steps, n, f) && CanTake(f, steps[n - 1])
    ensures SoundProcesses(steps, n, Taken(f, steps[n - 1]))
  {
    var t := steps[n - 1];
    forall p | p in Taken(f, t).procs ensures SoundProcess(steps, n, Taken(f, t).procs[p]) {
      if p == t.p {
        StepperStaysSound(steps, n, f);
      } else {
        OthersStand(f, t, p);
      }
    }
  }

  lemma OthersStand(f: Files, t: FileStep, p: Pid)
    requires CanTake(f, t) && p != t.p
    ensures p in Taken(f, t).procs <==> p in f.procs
    ensures p in f.procs ==> Taken(f, t).procs[p] == f.procs[p]
  {
  }

  lemma StepperStaysSound(steps: seq<FileStep>, n: nat, f: Files)
    requires 0 < n <= |steps| && SoundFiles(steps, n, f) && CanTake(f, steps[n - 1])
    ensures var t := steps[n - 1];
      t.p in Taken(f, t).procs && SoundProcess(steps, n, Taken(f, t).procs[t.p])
  {
    var t := steps[n - 1];
    if t.StartEnable? {
      assert RequestedAt(steps, n, Taken(f, t).procs[t.p].request, n - 1);
    } else if t.StartApprove? {
      assert VettedAt(steps, n, t.approver, t.id, n - 1);
    } else if !t.StartDisable? {
      assert SoundProcess(steps, n, f.procs[t.p]);
    }
  }

  // ----- what the launcher sees of interleaved commands ----------------------------------------

  /** Some sound request and approval stand behind this id. */
  ghost predicate Backed(steps: seq<FileStep>, n: nat, id: string) {
    exists r: Request, approver: string :: r.id == id && Sound(steps, n, r, approver)
  }

  lemma BackedForGood(steps: seq<FileStep>, n: nat, id: string)
    requires n + 1 <= |steps| && Backed(steps, n, id)
    ensures Backed(steps, n + 1, id)
  {
    var r: Request, approver: string :| r.id == id && Sound(steps, n, r, approver);
    var i: nat :| RequestedAt(steps, n, r, i);
    assert RequestedAt(steps, n + 1, r, i);
    var j: nat :| VettedAt(steps, n, approver, r.id, j);
    assert VettedAt(steps, n + 1, approver, r.id, j);
    assert Sound(steps, n + 1, r, approver);
  }

  lemma WriterIsBacked(steps: seq<FileStep>, n: nat, p: Process)
    requires SoundProcess(steps, n, p) && (p.HasRead? || p.ActiveOpen?)
    ensures Backed(steps, n, IdOf(p.request.user, p.request.profile))
  {
    RequestIdIsItsName(steps, n, p.request);
    assert Sound(steps, n, p.request, p.approver);
  }

  /** The mere presence of a token file, whole, torn or garbled, has a sound approval behind it. */
  lemma {:induction false} PresentIsBacked(steps: seq<FileStep>, states: seq<Files>, n: nat, id: string)
    requires Interleaving(steps, states) && n <= |steps| && id in states[n].active
    ensures Backed(steps, n, id)
  {
    assert FileLinked(steps, states, n - 1);
    var f, t := states[n - 1], steps[n - 1];
    if id in f.active {
      PresentIsBacked(steps, states, n - 1, id);
      BackedForGood(steps, n - 1, id);
    } else {
      InterleavedApproval(steps, states, n - 1);
      WriterIsBacked(steps, n - 1, f.procs[t.p]);
      BackedForGood(steps, n - 1, id);
    }
  }

  /** The launcher's guard under any interleaving: it looks for the file only, and a file that is
      there, readable or not, was requested by a then-administrator and vetted by a then-approver
      who is someone else; without dots the request was for this very user and profile. */
  lemma InterleavedLaunch(steps: seq<FileStep>, states: seq<Files>, n: nat, user: string, profile: string)
    returns (r: Request, approver: string)
    requires Interleaving(steps, states) && n <= |steps| && IdOf(user, profile) in states[n].active
    ensures Sound(steps, n, r, approver) && IdOf(r.user, r.profile) == IdOf(user, profile)
    ensures '.' !in r.user && '.' !in r.profile ==> r.user == user && r.profile == profile
  {
    PresentIsBacked(steps, states, n, IdOf(user, profile));
    r, approver :| r.id == IdOf(user, profile) && Sound(steps, n, r, approver);
    RequestIdIsItsName(steps, n, r);
    UnambiguousExactly(r.user, r.profile);
  }

  // ----- commands alone are atomic ------------------------------------------------------------

  /** The store as files, all of them whole. */
  function FilesOf(s: Store, procs: map<Pid, Process>): Files {
    Files(map id | id in s.pending :: Whole(s.pending[id]), map id | id in s.active :: Whole(s.active[id]), procs)
  }

  /** Process `p` takes these steps with no other in between. */
  ghost predicate RunsTo(f: Files, steps: seq<FileStep>, g: Files)
    decreases |steps|
  {
    if steps == [] then f == g else CanTake(f, steps[0]) && RunsTo(Taken(f, steps[0]), steps[1..], g)
  }

  lemma RunsToStep(f: Files, t: FileStep, rest: seq<FileStep>, g: Files)
    requires CanTake(f, t) && RunsTo(Taken(f, t), rest, g)
    ensures RunsTo(f, [t] + rest, g)
  {
    assert ([t] + rest)[1..] == rest;
  }

  function EnableSteps(c: Command, p: Pid): seq<FileStep>
    requires c.Enable?
  {
    [StartEnable(p, c.admins, c.requester, c.user, c.profile)] + ([OpenPending(p)] + ([WritePending(p, Landed)] + []))
  }

  /** A successful enable that runs alone leaves the files of its atomic result. */
  lemma EnableAlone(s: Store, procs: map<Pid, Process>, p: Pid, c: Command)
    requires c.Enable? && p !in procs && Executed(s, c).1 == Done
    ensures RunsTo(FilesOf(s, procs), EnableSteps(c, p), FilesOf(Executed(s, c).0, procs[p := Ended]))
  {
    var r := RequestOf(c);
    var f := FilesOf(s, procs);
    var f1 := f.(procs := procs[p := Requesting(r)]);
    var f2 := f.(pending := f.pending[r.id := Torn], procs := procs[p := PendingOpen(r)]);
    var f3 := FilesOf(Executed(s, c).0, procs[p := Ended]);
    assert f1.procs[p := PendingOpen(r)] == f2.procs && f2.procs[p := Ended] == f3.procs;
    assert f2.pending[r.id := Whole(r)] == f3.pending;
    RunsToStep(f2, WritePending(p, Landed), [], f3);
    RunsToStep(f1, OpenPending(p), [WritePending(p, Landed)] + [], f3);
    RunsToStep(f, EnableSteps(c, p)[0], [OpenPending(p)] + ([WritePending(p, Landed)] + []), f3);
  }

  function FinishSteps(p: Pid): seq<FileStep> {
    [OpenActive(p)] + ([WriteActive(p, Landed)] + ([UnlinkPending(p)] + []))
  }

  function ApproveSteps(c: Command, p: Pid): seq<FileStep>
    requires c.Approve?
  {
    [StartApprove(p, c.approvers, c.approver, c.id)] + ([ReadPending(p)] + FinishSteps(p))
  }

  /** A successful approve that runs alone leaves the files of its atomic result. */
  lemma ApproveAlone(s: Store, procs: map<Pid, Process>, p: Pid, c: Command)
    requires c.Approve? && p !in procs && Executed(s, c).1 == Done
    ensures RunsTo(FilesOf(s, procs), ApproveSteps(c, p), FilesOf(Executed(s, c).0, procs[p := Ended]))
  {
    var r := s.pending[c.id];
    var f := FilesOf(s, procs);
    var f1 := f.(procs := procs[p := Approving(c.approver, c.id)]);
    var f2 := f.(procs := procs[p := HasRead(c.approver, c.id, r)]);
    var g := FilesOf(Executed(s, c).0, procs[p := Ended]);
    assert f1.procs[p := HasRead(c.approver, c.id, r)] == f2.procs;
    FinishAlone(s, procs, p, c, r);
    RunsToStep(f1, ReadPending(p), FinishSteps(p), g);
    RunsToStep(f, ApproveSteps(c, p)[0], [ReadPending(p)] + FinishSteps(p), g);
  }

  lemma FinishAlone(s: Store, procs: map<Pid, Process>, p: Pid, c: Command, r: Request)
    requires c.Approve? && Executed(s, c).1 == Done && r == s.pending[c.id]
    ensures RunsTo(FilesOf(s, procs[p := HasRead(c.approver, c.id, r)]), FinishSteps(p),
                   FilesOf(Executed(s, c).0, procs[p := Ended]))
  {
    var name, token := IdOf(r.user, r.profile), Token(r, c.approver);
    var f2 := FilesOf(s, procs[p := HasRead(c.approver, c.id, r)]);
    var f4 := f2.(active := f2.active[name := Whole(token)], procs := procs[p := HasWritten(c.id)]);
    var g := FilesOf(Executed(s, c).0, procs[p := Ended]);
    assert f4.procs[p := Ended] == g.procs && f4.pending - {c.id} == g.pending && f4.active == g.active;
    RunsToStep(f4, UnlinkPending(p), [], g);
    TokenWrittenAlone(f2, procs, p, c.approver, c.id, r, [UnlinkPending(p)] + [], g);
  }

  lemma TokenWrittenAlone(f: Files, procs: map<Pid, Process>, p: Pid, approver: string, id: string, r: Request,
                          rest: seq<FileStep>, g: Files)
    requires f.procs == procs[p := HasRead(approver, id, r)] && IdOf(r.user, r.profile) != DOT
    requires RunsTo(f.(active := f.active[IdOf(r.user, r.profile) := Whole(Token(r, approver))],
                       procs := procs[p := HasWritten(id)]), rest, g)
    ensures RunsTo(f, [OpenActive(p)] + ([WriteActive(p, Landed)] + rest), g)
  {
    var name, token := IdOf(r.user, r.profile), Token(r, approver);
    var f3 := f.(active := f.active[name := Torn], procs := procs[p := ActiveOpen(approver, id, r)]);
    assert f.procs[p := ActiveOpen(approver, id, r)] == f3.procs;
    assert f3.procs[p := HasWritten(id)] == procs[p := HasWritten(id)];
    assert f3.active[name := Whole(token)] == f.active[name := Whole(token)];
    RunsToStep(f3, WriteActive(p, Landed), rest, g);
    RunsToStep(f, OpenActive(p), [WriteActive(p, Landed)] + rest, g);
  }

  /** An approve that finds no request, or its own, ends after reading and leaves all as it was. */
  lemma RefusedAlone(s: Store, procs: map<Pid, Process>, p: Pid, c: Command)
    requires c.Approve? && p !in procs && c.approver in c.approvers && ValidName(c.id)
    requires c.id !in s.pending || s.pending[c.id].requester == c.approver
    ensures RunsTo(FilesOf(s, procs), [StartApprove(p, c.approvers, c.approver, c.id)] + ([ReadPending(p)] + []),
                   FilesOf(s, procs[p := Ended]))
  {
    var f := FilesOf(s, procs);
    var f1 := f.(procs := procs[p := Approving(c.approver, c.id)]);
    var g := FilesOf(s, procs[p := Ended]);
    assert f1.procs[p := Ended] == g.procs;
    RunsToStep(f1, ReadPending(p), [], g);
    RunsToStep(f, StartApprove(p, c.approvers, c.approver, c.id), [ReadPending(p)] + [], g);
  }

  function DisableSteps(c: Command, p: Pid): seq<FileStep>
    requires c.Disable?
  {
    [StartDisable(p, c.admins, c.actor, c.target)] + ([UnlinkTarget(p)] + [])
  }

  /** A disable by an administrator that runs alone leaves the files of its atomic result, whether
      it found something to remove or not. */
  lemma DisableAlone(s: Store, procs: map<Pid, Process>, p: Pid, c: Command)
    requires c.Disable? && p !in procs && c.actor in c.admins
    ensures RunsTo(FilesOf(s, procs), DisableSteps(c, p), FilesOf(Executed(s, c).0, procs[p := Ended]))
  {
    var f := FilesOf(s, procs);
    var f1 := f.(procs := procs[p := Disabling(c.target)]);
    var g := FilesOf(Executed(s, c).0, procs[p := Ended]);
    RemovedAlone(s, procs, p, c);
    RunsToStep(f1, UnlinkTarget(p), [], g);
    RunsToStep(f, DisableSteps(c, p)[0], [UnlinkTarget(p)] + [], g);
  }

  lemma RemovedAlone(s: Store, procs: map<Pid, Process>, p: Pid, c: Command)
    requires c.Disable? && c.actor in c.admins
    ensures var f1 := FilesOf(s, procs).(procs := procs[p := Disabling(c.target)]);
      Taken(f1, UnlinkTarget(p)) == FilesOf(Executed(s, c).0, procs[p := Ended])
  {
    assert procs[p := Disabling(c.target)][p := Ended] == procs[p := Ended];
    var after := Executed(s, c).0;
    match c.target
    case ActiveFile(id) =>
      assert FilesOf(s, procs).active - {id} == FilesOf(after, procs).active;
    case PendingFile(id) =>
      assert FilesOf(s, procs).pending - {id} == FilesOf(after, procs).pending;
    case Elsewhere(_) =>
  }

  // ----- which request an approve unlinks -----------------------------------------------------

  /** Step `i` changes the pending file of `id`. */
  ghost predicate Touches(steps: seq<FileStep>, states: seq<Files>, i: nat, id: string)
    requires Interleaving(steps, states)
  {
    && i < |steps| && FileLinked(steps, states, i)
    && var f, t := states[i], steps[i];
    match t
    case OpenPending(p) => f.procs[p].request.id == id
    case WritePending(p, fate) => !fate.Unlinked? && f.procs[p].request.id == id
    case UnlinkPending(p) => f.procs[p].id == id
    case UnlinkTarget(p) => f.procs[p].target == PendingFile(id)
    case _ => false
  }

  /** Step `i` leaves exactly `r` in the pending file of `id`. */
  ghost predicate Refiles(steps: seq<FileStep>, states: seq<Files>, i: nat, id: string, r: Request)
    requires Interleaving(steps, states)
  {
    && Touches(steps, states, i, id) && steps[i].WritePending? && steps[i].fate.Landed?
    && states[i].procs[steps[i].p].request == r
  }

  ghost predicate Holds(f: Files, id: string, r: Request) {
    id in f.pending && f.pending[id] == Whole(r)
  }

  lemma StepHolds(steps: seq<FileStep>, states: seq<Files>, i: nat, id: string, r: Request)
    requires Interleaving(steps, states) && i < |steps|
    ensures Holds(states[i + 1], id, r) <==>
            if Touches(steps, states, i, id) then Refiles(steps, states, i, id, r) else Holds(states[i], id, r)
  {
    assert FileLinked(steps, states, i);
  }

  ghost predicate UntouchedBetween(steps: seq<FileStep>, states: seq<Files>, from: nat, to: nat, id: string)
    requires Interleaving(steps, states)
  {
    forall i: nat :: from <= i < to ==> !Touches(steps, states, i, id)
  }

  /** From step `from` on, up to `to`, `i` is the last step on the pending file of `id`. */
  ghost predicate LastTouch(steps: seq<FileStep>, states: seq<Files>, from: nat, to: nat, id: string, i: nat)
    requires Interleaving(steps, states)
  {
    from <= i < to && Touches(steps, states, i, id) && UntouchedBetween(steps, states, i + 1, to, id)
  }

  /** Untouched since, or last of all refiled unchanged. */
  ghost predicate LeftAsRead(steps: seq<FileStep>, states: seq<Files>, from: nat, to: nat, id: string, r: Request)
    requires Interleaving(steps, states)
  {
    || UntouchedBetween(steps, states, from, to, id)
    || exists i: nat :: LastTouch(steps, states, from, to, id, i) && Refiles(steps, states, i, id, r)
  }

  lemma {:induction false} HoldsExactly(steps: seq<FileStep>, states: seq<Files>, from: nat, to: nat, id: string,
                                        r: Request)
    requires Interleaving(steps, states) && from <= to <= |steps| && Holds(states[from], id, r)
    ensures Holds(states[to], id, r) <==> LeftAsRead(steps, states, from, to, id, r)
  {
    if from < to {
      var m: nat := to - 1;
      HoldsExactly(steps, states, from, m, id, r);
      StepHolds(steps, states, m, id, r);
      if Touches(steps, states, m, id) {
        assert LastTouch(steps, states, from, to, id, m);
      } else {
        forall i: nat ensures LastTouch(steps, states, from, to, id, i) <==> LastTouch(steps, states, from, m, id, i) {
          LastTouchBefore(steps, states, from, to, id, i);
        }
        assert UntouchedBetween(steps, states, from, to, id) <==> UntouchedBetween(steps, states, from, m, id);
      }
    }
  }

  lemma LastTouchBefore(steps: seq<FileStep>, states: seq<Files>, from: nat, to: nat, id: string, i: nat)
    requires Interleaving(steps, states) && from < to && !Touches(steps, states, to - 1, id)
    ensures LastTouch(steps, states, from, to, id, i) <==> LastTouch(steps, states, from, to - 1, id, i)
  {
  }

  /** An approve that has read `r` carries it, under this id, to its end. */
  ghost predicate Carries(p: Process, id: string, r: Request) {
    match p
    case HasRead(_, id', r') => id' == id && r' == r
    case ActiveOpen(_, id', r') => id' == id && r' == r
    case HasWritten(id') => id' == id
    case Ended => true
    case _ => false
  }

  lemma {:induction false} CarriesOn(steps: seq<FileStep>, states: seq<Files>, k: nat, n: nat, p: Pid, id: string,
                                     r: Request)
    requires Interleaving(steps, states) && k <= n <= |steps|
    requires p in states[k].procs && Carries(states[k].procs[p], id, r)
    ensures p in states[n].procs && Carries(states[n].procs[p], id, r)
  {
    if k < n {
      CarriesOn(steps, states, k, n - 1, p, id, r);
      assert FileLinked(steps, states, n - 1);
    }
  }

  /** What an approve that read `r` at step `k` unlinks at step `n` is the file of this id, and it
      still holds `r` exactly when no step in between touched the file or the last one that did
      wrote `r` again. */
  lemma UnlinksWhatItApprovedExactly(steps: seq<FileStep>, states: seq<Files>, k: nat, n: nat, p: Pid,
                                     approver: string, id: string, r: Request)
    requires Interleaving(steps, states) && k < n < |steps|
    requires steps[k] == ReadPending(p)
    requires p in states[k + 1].procs && states[k + 1].procs[p] == HasRead(approver, id, r)
    requires steps[n] == UnlinkPending(p)
    ensures p in states[n].procs && states[n].procs[p] == HasWritten(id)
    ensures Holds(states[n], id, r) <==> LeftAsRead(steps, states, k + 1, n, id, r)
  {
    assert FileLinked(steps, states, k);
    assert FileLinked(steps, states, n);
    assert Holds(states[k + 1], id, r);
    CarriesOn(steps, states, k + 1, n, p, id, r);
    HoldsExactly(steps, states, k + 1, n, id, r);
  }

  function Overtaking(alice: string, bob: string, carol: string, user: string, profile: string): seq<FileStep> {
    [StartEnable(1, {alice}, alice, user, profile), OpenPending(1), WritePending(1, Landed),
     StartApprove(2, {carol}, carol, IdOf(user, profile)), ReadPending(2),
     StartEnable(3, {bob}, bob, user, profile), OpenPending(3), WritePending(3, Landed),
     OpenActive(2), WriteActive(2, Landed), UnlinkPending(2)]
  }

  /** An example in which it does not: a request that overtakes an approve in progress is unlinked
      unread, and the token written after it still names the earlier requester. */
  lemma OvertakenRequest(alice: string, bob: string, carol: string, user: string, profile: string)
    returns (states: seq<Files>)
    requires alice != carol && alice != bob
    requires ValidName(user) && ValidName(profile) && ValidName(IdOf(user, profile)) && IdOf(user, profile) != DOT
    ensures var id := IdOf(user, profile);
      && Interleaving(Overtaking(alice, bob, carol, user, profile), states)
      && states[11].active == map[id := Whole(Token(Request(id, user, profile, alice), carol))]
      && id !in states[11].pending
  {
    var steps := Overtaking(alice, bob, carol, user, profile);
    var id := IdOf(user, profile);
    var r := Request(id, user, profile, alice);
    states := ApproveHasRead(alice, bob, carol, user, profile);
    states := RequestOvertakes(alice, bob, carol, user, profile, states);
    states := TokenWritten(alice, bob, carol, user, profile, states);
    var active := map[id := Whole(Token(r, carol))];
    states := Extend(steps, states, Files(map[], active, map[1 := Ended, 2 := Ended, 3 := Ended]));
    assert steps[..11] == steps;
  }

  lemma TokenWritten(alice: string, bob: string, carol: string, user: string, profile: string, states0: seq<Files>)
    returns (states: seq<Files>)
    requires IdOf(user, profile) != DOT
    requires var id := IdOf(user, profile);
      var r, r' := Request(id, user, profile, alice), Request(id, user, profile, bob);
      && |states0| == 9 && Interleaving(Overtaking(alice, bob, carol, user, profile)[..8], states0)
      && states0[8] == Files(map[id := Whole(r')], map[], map[1 := Ended, 2 := HasRead(carol, id, r), 3 := Ended])
    ensures var id := IdOf(user, profile);
      var r, r' := Request(id, user, profile, alice), Request(id, user, profile, bob);
      && |states| == 11 && Interleaving(Overtaking(alice, bob, carol, user, profile)[..10], states)
      && states[10] == Files(map[id := Whole(r')], map[id := Whole(Token(r, carol))],
                             map[1 := Ended, 2 := HasWritten(id), 3 := Ended])
  {
    var steps := Overtaking(alice, bob, carol, user, profile);
    var id := IdOf(user, profile);
    var r, r' := Request(id, user, profile, alice), Request(id, user, profile, bob);
    var second, writing := map[id := Whole(r')], ActiveOpen(carol, id, r);
    states := Extend(steps, states0, Files(second, map[id := Torn], map[1 := Ended, 2 := writing, 3 := Ended]));
    var active := map[id := Whole(Token(r, carol))];
    states := Extend(steps, states, Files(second, active, map[1 := Ended, 2 := HasWritten(id), 3 := Ended]));
  }

  lemma ApproveHasRead(alice: string, bob: string, carol: string, user: string, profile: string)
    returns (states: seq<Files>)
    requires alice != carol
    requires ValidName(user) && ValidName(profile) && ValidName(IdOf(user, profile))
    ensures var id := IdOf(user, profile);
      var r := Request(id, user, profile, alice);
      && |states| == 6 && Interleaving(Overtaking(alice, bob, carol, user, profile)[..5], states)
      && states[5] == Files(map[id := Whole(r)], map[], map[1 := Ended, 2 := HasRead(carol, id, r)])
  {
    var steps := Overtaking(alice, bob, carol, user, profile);
    var id := IdOf(user, profile);
    var r := Request(id, user, profile, alice);
    var first := map[id := Whole(r)];
    states := RequestFiled(alice, bob, carol, user, profile);
    states := Extend(steps, states, Files(first, map[], map[1 := Ended, 2 := Approving(carol, id)]));
    states := Extend(steps, states, Files(first, map[], map[1 := Ended, 2 := HasRead(carol, id, r)]));
  }

  lemma RequestFiled(alice: string, bob: string, carol: string, user: string, profile: string)
    returns (states: seq<Files>)
    requires ValidName(user) && ValidName(profile)
    ensures var id := IdOf(user, profile);
      && |states| == 4 && Interleaving(Overtaking(alice, bob, carol, user, profile)[..3], states)
      && states[3] == Files(map[id := Whole(Request(id, user, profile, alice))], map[], map[1 := Ended])
  {
    var steps := Overtaking(alice, bob, carol, user, profile);
    var id := IdOf(user, profile);
    var r := Request(id, user, profile, alice);
    states := [Files(map[], map[], map[])];
    states := Extend(steps, states, Files(map[], map[], map[1 := Requesting(r)]));
    states := Extend(steps, states, Files(map[id := Torn], map[], map[1 := PendingOpen(r)]));
    states := Extend(steps, states, Files(map[id := Whole(r)], map[], map[1 := Ended]));
  }

  lemma RequestOvertakes(alice: string, bob: string, carol: string, user: string, profile: string, states0: seq<Files>)
    returns (states: seq<Files>)
    requires ValidName(user) && ValidName(profile)
    requires var id := IdOf(user, profile);
      var r := Request(id, user, profile, alice);
      && |states0| == 6 && Interleaving(Overtaking(alice, bob, carol, user, profile)[..5], states0)
      && states0[5] == Files(map[id := Whole(r)], map[], map[1 := Ended, 2 := HasRead(carol, id, r)])
    ensures var id := IdOf(user, profile);
      var r, r' := Request(id, user, profile, alice), Request(id, user, profile, bob);
      && |states| == 9 && Interleaving(Overtaking(alice, bob, carol, user, profile)[..8], states)
      && states[8] == Files(map[id := Whole(r')], map[], map[1 := Ended, 2 := HasRead(carol, id, r), 3 := Ended])
  {
    var steps := Overtaking(alice, bob, carol, user, profile);
    var id := IdOf(user, profile);
    var r, r' := Request(id, user, profile, alice), Request(id, user, profile, bob);
    var read, first := HasRead(carol, id, r), map[id := Whole(r)];
    states := Extend(steps, states0, Files(first, map[], map[1 := Ended, 2 := read, 3 := Requesting(r')]));
    states := Extend(steps, states, Files(map[id := Torn], map[], map[1 := Ended, 2 := read, 3 := PendingOpen(r')]));
    states := Extend(steps, states, Files(map[id := Whole(r')], map[], map[1 := Ended, 2 := read, 3 := Ended]));
  }

  /** Adds the state after the next step to a run of a prefix of `steps`. */
  lemma Extend(steps: seq<FileStep>, states: seq<Files>, next: Files) returns (states': seq<Files>)
    requires 0 < |states| <= |steps|
    requires Interleaving(steps[..|states| - 1], states)
    requires CanTake(states[|states| - 1], steps[|states| - 1])
    requires next == Taken(states[|states| - 1], steps[|states| - 1])
    ensures states' == states + [next] && Interleaving(steps[..|states|], states')
  {
    states' := states + [next];
    var n := |states|;
    forall i | 0 <= i < n ensures FileLinked(steps[..n], states', i) {
      if i < n - 1 {
        assert FileLinked(steps[..n - 1], states, i);
      }
    }
  }
}
