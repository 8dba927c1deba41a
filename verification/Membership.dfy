/** The replicated membership state and the state machine that feeds it. JSON encoding is
    lossless and stands for the values themselves. */
module Membership {
  import opened Base

  datatype Member = Member(id: string, addr: string, meta: map<string, string>)

  type Members = map<string, Member>

  const NO_MEMBERS: Members := map[]

  datatype Error = EmptyId | Malformed

  /** A Raft log entry after decoding: None is a payload that does not decode. */
  datatype Command =
    | BadLog
    | AddNode(member: Option<Member>)
    | RemoveNode(id: Option<string>)
    | Unknown(op: string)

  // ----- order on IDs -----

  /** Lexicographic order of strings, as Go compares them. */
  predicate Less(a: string, b: string) {
    b != "" && (a == "" || a[0] < b[0] || (a[0] == b[0] && Less(a[1..], b[1..])))
  }

  lemma {:induction false} LessTotal(a: string, b: string)
    ensures Less(a, b) || Less(b, a) || a == b
  {
    if a != "" && b != "" && a[0] == b[0] {
      LessTotal(a[1..], b[1..]);
      assert a == [a[0]] + a[1..] && b == [b[0]] + b[1..];
    }
  }

  lemma {:induction false} LessIrreflexive(a: string)
    ensures !Less(a, a)
  {
    if a != "" {
      LessIrreflexive(a[1..]);
    }
  }

  lemma {:induction false} LessTransitive(a: string, b: string, c: string)
    requires Less(a, b) && Less(b, c)
    ensures Less(a, c)
  {
    if a != "" && a[0] == b[0] == c[0] {
      LessTransitive(a[1..], b[1..], c[1..]);
    }
  }

  /** The first `k` characters agree, and then `a` ends or has the smaller character. */
  ghost predicate FirstDiffers(a: string, b: string, k: int) {
    && 0 <= k <= |a| && k < |b| && a[..k] == b[..k]
    && (k < |a| ==> a[k] < b[k])
  }

  ghost predicate Precedes(a: string, b: string) {
    exists k :: FirstDiffers(a, b, k)
  }

  /** What the order is: ascending, a proper prefix first. */
  lemma {:induction false} LessIff(a: string, b: string)
    ensures Less(a, b) <==> Precedes(a, b)
  {
    if a == "" || b == "" || a[0] != b[0] {
      assert Less(a, b) ==> FirstDiffers(a, b, 0);
    } else {
      LessIff(a[1..], b[1..]);
      assert !FirstDiffers(a, b, 0);
      if k :| FirstDiffers(a, b, k) {
        DiffersLater(a, b, k - 1);
      }
      if k :| FirstDiffers(a[1..], b[1..], k) {
        DiffersLater(a, b, k);
      }
    }
  }

  lemma DiffersLater(a: string, b: string, k: nat)
    requires a != "" && b != "" && a[0] == b[0]
    ensures FirstDiffers(a, b, k + 1) <==> FirstDiffers(a[1..], b[1..], k)
  {
    if k + 1 <= |a| && k + 1 <= |b| {
      assert a[..k + 1] == [a[0]] + a[1..][..k] && b[..k + 1] == [b[0]] + b[1..][..k];
      assert a[1..][..k] == a[..k + 1][1..] && b[1..][..k] == b[..k + 1][1..];
    }
  }

  /** Strictly increasing IDs. */
  ghost predicate Sorted(ms: seq<Member>) {
    forall i, j :: 0 <= i < j < |ms| ==> Less(ms[i].id, ms[j].id)
  }

  ghost predicate Ascending(ms: seq<Member>) {
    forall i, j :: 0 <= i < j < |ms| ==> Precedes(ms[i].id, ms[j].id)
  }

  lemma SortedAscends(ms: seq<Member>)
    ensures Sorted(ms) <==> Ascending(ms)
  {
    forall i, j | 0 <= i < j < |ms| ensures Less(ms[i].id, ms[j].id) <==> Precedes(ms[i].id, ms[j].id) {
      LessIff(ms[i].id, ms[j].id);
    }
    hide Less, Precedes;
  }

  // ----- state -----

  /** Members are filed under their own, non-empty ID. */
  ghost predicate Valid(m: Members) {
    forall id :: id in m ==> id != "" && m[id].id == id
  }

  function Add(m: Members, n: Member): Members {
    if n.id == "" then m else m[n.id := n]
  }

  function Remove(m: Members, id: string): Members {
    if id == "" then m else m - {id}
  }

  function Apply(m: Members, c: Command): Members {
    match c
    case AddNode(Some(n)) => Add(m, n)
    case RemoveNode(Some(id)) => Remove(m, id)
    case _ => m
  }

  /** The log entry and its payload decode. */
  predicate Decodes(c: Command) {
    c != BadLog && c != AddNode(None) && c != RemoveNode(None)
  }

  /** ... but name the empty ID. */
  predicate NamesNobody(c: Command) {
    c == RemoveNode(Some("")) || (c.AddNode? && c.member.Some? && c.member.value.id == "")
  }

  /** Applying a log entry fails exactly when it does not decode or names the empty ID, and then
      leaves the state alone; an unknown operation does so too, without an error. */
  lemma OutcomeIff(m: Members, c: Command)
    ensures Outcome(c) == Some(Malformed) <==> !Decodes(c)
    ensures Outcome(c) == Some(EmptyId) <==> NamesNobody(c)
    ensures Outcome(c) != None || c.Unknown? ==> Apply(m, c) == m
  {
  }

  function Outcome(c: Command): Option<Error> {
    match c
    case BadLog => Some(Malformed)
    case AddNode(None) => Some(Malformed)
    case AddNode(Some(n)) => if n.id == "" then Some(EmptyId) else None
    case RemoveNode(None) => Some(Malformed)
    case RemoveNode(Some(id)) => if id == "" then Some(EmptyId) else None
    case Unknown(_) => None
  }

  function ApplyAll(m: Members, log: seq<Command>): Members {
    if log == [] then m else Apply(ApplyAll(m, log[..|log| - 1]), log[|log| - 1])
  }

  /** `Restore` of a decoded member list: later entries win, empty IDs are skipped. */
  function FromList(ms: seq<Member>): Members {
    if ms == [] then map[] else Add(FromList(ms[..|ms| - 1]), ms[|ms| - 1])
  }

  /** What a snapshot of `m` must be: its members, strictly sorted by ID. */
  ghost predicate IsSnapshot(m: Members, ms: seq<Member>) {
    Sorted(ms) && forall x :: x in ms <==> x.id in m && m[x.id] == x
  }

  lemma {:induction false} FromListValid(ms: seq<Member>)
    ensures Valid(FromList(ms))
  {
    if ms != [] {
      FromListValid(ms[..|ms| - 1]);
    }
  }

  // ----- the state in place -----

  class State {
    var members: Members

    constructor ()
      ensures members == map[]
    {
      members := map[];
    }

    method ApplyAddNode(n: Member) returns (err: Option<Error>)
      modifies this
      ensures members == Add(old(members), n)
      ensures err == if n.id == "" then Some(EmptyId) else None
    {
      if n.id == "" {
        return Some(EmptyId);
      }
      members := members[n.id := n];
      return None;
    }

    method ApplyRemoveNode(id: string) returns (err: Option<Error>)
      modifies this
      ensures members == Remove(old(members), id)
      ensures err == if id == "" then Some(EmptyId) else None
    {
      if id == "" {
        return Some(EmptyId);
      }
      members := members - {id};
      return None;
    }

    /** Collects the members in any order, then sorts by ID. */
    method Snapshot() returns (ms: seq<Member>)
      requires Valid(members)
      ensures IsSnapshot(members, ms)
      ensures Ascending(ms)
    {
      var arr: seq<Member> := [];
      var todo := members.Keys;
      while todo != {}
        invariant todo <= members.Keys
        invariant forall x :: x in arr <==> x.id in members && x.id !in todo && members[x.id] == x
        invariant forall i, j :: 0 <= i < j < |arr| ==> arr[i].id != arr[j].id
        decreases |todo|
      {
        var id :| id in todo;
        todo := todo - {id};
        assert forall i :: 0 <= i < |arr| ==> arr[i] in arr;
        arr := arr + [members[id]];
      }
      ms := SortById(arr);
      SortedAscends(ms);
    }

    /** Replaces the whole state; a snapshot that does not decode leaves it alone. */
    method Restore(decoded: Option<seq<Member>>) returns (err: Option<Error>)
      modifies this
      ensures decoded.None? ==> members == old(members) && err == Some(Malformed)
      ensures decoded.Some? ==> members == FromList(decoded.value) && err == None
    {
      if decoded.None? {
        return Some(Malformed);
      }
      var ms := decoded.value;
      members := map[];
      for i := 0 to |ms|
        invariant members == FromList(ms[..i])
      {
        assert ms[..i + 1][..i] == ms[..i];
        if ms[i].id != "" {
          members := members[ms[i].id := ms[i]];
        }
      }
      assert ms[..|ms|] == ms;
      return None;
    }
  }

  /** `membershipFSM`: Raft's view of the state. */
  class Fsm {
    const ms: State

    constructor (ms: State)
      ensures this.ms == ms
    {
      this.ms := ms;
    }

    method ApplyLog(c: Command) returns (err: Option<Error>)
      modifies ms
      ensures ms.members == Apply(old(ms.members), c)
      ensures err == Outcome(c)
      ensures err == if !Decodes(c) then Some(Malformed) else if NamesNobody(c) then Some(EmptyId) else None
      ensures err.Some? || c.Unknown? ==> ms.members == old(ms.members)
    {
      OutcomeIff(ms.members, c);
      match c {
        case BadLog => err := Some(Malformed);
        case AddNode(None) => err := Some(Malformed);
        case AddNode(Some(n)) => err := ms.ApplyAddNode(n);
        case RemoveNode(None) => err := Some(Malformed);
        case RemoveNode(Some(id)) => err := ms.ApplyRemoveNode(id);
        case Unknown(_) => err := None;
      }
    }
  }

  /** Sorting by ID. Which algorithm sorts is immaterial, since the IDs are distinct: see
      SnapshotUnique. */
  method SortById(arr: seq<Member>) returns (ms: seq<Member>)
    requires forall i, j :: 0 <= i < j < |arr| ==> arr[i].id != arr[j].id
    ensures Sorted(ms)
    ensures forall m :: m in ms <==> m in arr
  {
    ms := [];
    for i := 0 to |arr|
      invariant Sorted(ms)
      invariant forall m :: m in ms <==> m in arr[..i]
    {
      assert forall m :: m in arr[..i] ==> m.id != arr[i].id;
      ms := Insert(ms, arr[i]);
      assert arr[..i + 1] == arr[..i] + [arr[i]];
    }
    assert arr[..|arr|] == arr;
  }

  method Insert(ms: seq<Member>, n: Member) returns (out: seq<Member>)
    requires Sorted(ms) && forall m :: m in ms ==> m.id != n.id
    ensures Sorted(out)
    ensures forall m :: m in out <==> m in ms || m == n
  {
    var k := 0;
    while k < |ms| && Less(ms[k].id, n.id)
      invariant 0 <= k <= |ms|
      invariant forall i :: 0 <= i < k ==> Less(ms[i].id, n.id)
    {
      k := k + 1;
    }
    InsertSorted(ms, n, k);
    out := ms[..k] + [n] + ms[k..];
  }

  lemma InsertSorted(ms: seq<Member>, n: Member, k: nat)
    requires Sorted(ms) && k <= |ms| && forall m :: m in ms ==> m.id != n.id
    requires forall i :: 0 <= i < k ==> Less(ms[i].id, n.id)
    requires k < |ms| ==> !Less(ms[k].id, n.id)
    ensures Sorted(ms[..k] + [n] + ms[k..])
    ensures forall m :: m in ms[..k] + [n] + ms[k..] <==> m in ms || m == n
  {
    hide Less;
    forall i | k <= i < |ms| ensures Less(n.id, ms[i].id) {
      assert ms[k] in ms;
      LessTotal(ms[k].id, n.id);
      if i > k {
        LessTransitive(n.id, ms[k].id, ms[i].id);
      }
    }
    var out := ms[..k] + [n] + ms[k..];
    forall i, j | 0 <= i < j < |out| ensures Less(out[i].id, out[j].id) {
      assert out[i] == if i < k then ms[i] else if i == k then n else ms[i - 1];
      assert out[j] == if j < k then ms[j] else if j == k then n else ms[j - 1];
    }
    assert ms == ms[..k] + ms[k..];
  }

  // ----- snapshots -----

  lemma MemberOrder(ms: seq<Member>, i: nat, j: nat)
    requires Sorted(ms) && i < |ms| && j < |ms| && Less(ms[i].id, ms[j].id)
    ensures i < j
  {
    if i == j {
      LessIrreflexive(ms[i].id);
    } else if j < i {
      LessTransitive(ms[i].id, ms[j].id, ms[i].id);
      LessIrreflexive(ms[i].id);
    }
  }

  lemma {:induction false} SortedUnique(a: seq<Member>, b: seq<Member>)
    requires Sorted(a) && Sorted(b) && forall x :: x in a <==> x in b
    ensures a == b
    decreases |a|
  {
    NonEmptyTogether(a, b);
    NonEmptyTogether(b, a);
    if a != [] {
      SameLast(a, b);
      DropLast(a);
      DropLast(b);
      var a', b' := a[..|a| - 1], b[..|b| - 1];
      forall x ensures x in a' <==> x in b' {
        assert x in a <==> x in b;
      }
      SortedUnique(a', b');
      assert a == a[..|a| - 1] + [a[|a| - 1]] && b == b[..|b| - 1] + [b[|b| - 1]];
    }
  }

  lemma NonEmptyTogether(a: seq<Member>, b: seq<Member>)
    requires forall x :: x in a ==> x in b
    ensures a != [] ==> b != []
  {
    if a != [] {
      assert a[0] in b;
    }
  }

  lemma SameLast(a: seq<Member>, b: seq<Member>)
    requires Sorted(a) && Sorted(b) && a != [] && b != [] && forall x :: x in a <==> x in b
    ensures a[|a| - 1] == b[|b| - 1]
  {
    var x, y := a[|a| - 1], b[|b| - 1];
    assert x in b && y in a;
    var i :| 0 <= i < |b| && b[i] == x;
    var j :| 0 <= j < |a| && a[j] == y;
    if j < |a| - 1 && i < |b| - 1 {
      MemberOrder(a, j, |a| - 1);
      MemberOrder(b, |b| - 1, i);
    }
  }

  lemma DropLast(a: seq<Member>)
    requires Sorted(a) && a != []
    ensures Sorted(a[..|a| - 1])
    ensures forall x :: x in a[..|a| - 1] <==> x in a && x != a[|a| - 1]
  {
    var init, last := a[..|a| - 1], a[|a| - 1];
    assert a == init + [last];
    LessIrreflexive(last.id);
  }

  /** A snapshot depends on the member map only, not on the order of iteration. */
  lemma SnapshotUnique(m: Members, a: seq<Member>, b: seq<Member>)
    requires IsSnapshot(m, a) && IsSnapshot(m, b)
    ensures a == b
  {
    SortedUnique(a, b);
  }

  /** The last member listed under an ID, if any. */
  function LastListed(ms: seq<Member>, id: string): Option<Member> {
    if ms == [] then None
    else if ms[|ms| - 1].id == id then Some(ms[|ms| - 1])
    else LastListed(ms[..|ms| - 1], id)
  }

  function Find(m: Members, id: string): Option<Member> {
    if id in m then Some(m[id]) else None
  }

  /** Restoring any decoded list keeps, per non-empty ID, the last member listed. */
  lemma {:induction false} RestoreKeepsLast(ms: seq<Member>, id: string)
    ensures Find(FromList(ms), id) == if id == "" then None else LastListed(ms, id)
  {
    if ms != [] {
      RestoreKeepsLast(ms[..|ms| - 1], id);
    }
  }

  lemma {:induction false} LastListedSorted(ms: seq<Member>, i: nat)
    requires Sorted(ms) && i < |ms|
    ensures LastListed(ms, ms[i].id) == Some(ms[i])
  {
    var last := ms[|ms| - 1];
    if i < |ms| - 1 {
      LessIrreflexive(last.id);
      LastListedSorted(ms[..|ms| - 1], i);
    }
  }

  lemma {:induction false} LastListedIsMember(ms: seq<Member>, id: string)
    ensures LastListed(ms, id).Some? ==> LastListed(ms, id).value in ms && LastListed(ms, id).value.id == id
  {
    if ms != [] {
      LastListedIsMember(ms[..|ms| - 1], id);
    }
  }

  /** Round trip: restoring a snapshot gives back the state it was taken from. */
  lemma SnapshotRoundTrip(m: Members, ms: seq<Member>)
    requires Valid(m) && IsSnapshot(m, ms)
    ensures FromList(ms) == m
  {
    forall id ensures Find(FromList(ms), id) == Find(m, id) {
      RestoreKeepsLast(ms, id);
      LastListedIsMember(ms, id);
      if id in m {
        assert m[id] in ms;
        var i :| 0 <= i < |ms| && ms[i] == m[id];
        LastListedSorted(ms, i);
      }
    }
    SameMembers(FromList(ms), m);
  }

  lemma SameMembers(a: Members, b: Members)
    requires forall id :: Find(a, id) == Find(b, id)
    ensures a == b
  {
    forall id ensures id in a <==> id in b {
      assert Find(a, id) == Find(b, id);
    }
    forall id | id in a ensures a[id] == b[id] {
      assert Find(a, id) == Find(b, id);
    }
  }

  /** Restoring any list and snapshotting gives the canonical list (strictly sorted, last entry
      per ID, no empty IDs); doing it again changes nothing. */
  lemma RestoreCanonicalises(ms: seq<Member>, out: seq<Member>, again: seq<Member>)
    requires IsSnapshot(FromList(ms), out) && IsSnapshot(FromList(out), again)
    ensures Ascending(out) && forall x :: x in out <==> x.id != "" && LastListed(ms, x.id) == Some(x)
    ensures again == out
  {
    forall x ensures x in out <==> x.id != "" && LastListed(ms, x.id) == Some(x) {
      RestoreKeepsLast(ms, x.id);
      assert x in out <==> Find(FromList(ms), x.id) == Some(x);
    }
    SortedAscends(out);
    FromListValid(ms);
    SnapshotRoundTrip(FromList(ms), out);
    SnapshotUnique(FromList(ms), out, again);
  }

  // ----- logs -----

  /** What the last command that concerns an ID says about it; None if no command does. */
  function LastEffect(log: seq<Command>, id: string): Option<Option<Member>> {
    if log == [] then None
    else if Concerns(log[|log| - 1], id) then
      Some(match log[|log| - 1] case AddNode(n) => n case _ => None)
    else LastEffect(log[..|log| - 1], id)
  }

  /** A valid command about this ID; malformed, empty-ID and unknown commands concern none. */
  predicate Concerns(c: Command, id: string) {
    match c
    case AddNode(Some(n)) => n.id == id && id != ""
    case RemoveNode(Some(i)) => i == id && id != ""
    case _ => false
  }

  /** The state after a log is decided ID by ID, by the last valid command for that ID. */
  lemma {:induction false} LastCommandDecides(m: Members, log: seq<Command>, id: string)
    ensures Find(ApplyAll(m, log), id) == match LastEffect(log, id) case Some(e) => e case None => Find(m, id)
  {
    if log != [] {
      LastCommandDecides(m, log[..|log| - 1], id);
    }
  }

  /** Two logs lead to the same state from a fresh start exactly when they agree on the last
      word about every ID. So dropping overridden commands, reordering commands on different
      IDs, and inserting invalid ones change nothing. */
  lemma LogsEquivalentIff(a: seq<Command>, b: seq<Command>)
    ensures ApplyAll(NO_MEMBERS, a) == ApplyAll(NO_MEMBERS, b) <==> SameLastWord(a, b)
  {
    var m, m' := ApplyAll(NO_MEMBERS, a), ApplyAll(NO_MEMBERS, b);
    forall id
      ensures Find(m, id) == Presence(LastEffect(a, id))
      ensures Find(m', id) == Presence(LastEffect(b, id))
    {
      LastCommandDecides(NO_MEMBERS, a, id);
      LastCommandDecides(NO_MEMBERS, b, id);
    }
    if SameLastWord(a, b) {
      SameMembers(m, m');
    } else {
      var id :| Presence(LastEffect(a, id)) != Presence(LastEffect(b, id));
      assert Find(m, id) != Find(m', id);
      assert m != m';
    }
  }

  ghost predicate SameLastWord(a: seq<Command>, b: seq<Command>) {
    forall id :: Presence(LastEffect(a, id)) == Presence(LastEffect(b, id))
  }

  function Presence(e: Option<Option<Member>>): Option<Member> {
    match e case Some(x) => x case None => None
  }

  lemma {:induction false} ApplyAllConcat(m: Members, a: seq<Command>, b: seq<Command>)
    ensures ApplyAll(m, a + b) == ApplyAll(ApplyAll(m, a), b)
  {
    if b == [] {
      assert a + b == a;
    } else {
      ApplyAllConcat(m, a, b[..|b| - 1]);
      assert (a + b)[..|a + b| - 1] == a + b[..|b| - 1];
    }
  }

  /** Commands about different IDs, or about none, commute anywhere in a log. */
  lemma SwapNeighbours(m: Members, before: seq<Command>, c: Command, d: Command, after: seq<Command>)
    requires forall id :: !(Concerns(c, id) && Concerns(d, id))
    ensures ApplyAll(m, before + [c, d] + after) == ApplyAll(m, before + [d, c] + after)
  {
    var mid := ApplyAll(m, before);
    ApplyAllConcat(m, before + [c, d], after);
    ApplyAllConcat(m, before + [d, c], after);
    ApplyAllConcat(m, before, [c, d]);
    ApplyAllConcat(m, before, [d, c]);
    forall id ensures Find(ApplyAll(mid, [c, d]), id) == Find(ApplyAll(mid, [d, c]), id) {
      LastCommandDecides(mid, [c, d], id);
      LastCommandDecides(mid, [d, c], id);
      TwoEffects(c, d, id);
      TwoEffects(d, c, id);
    }
    SameMembers(ApplyAll(mid, [c, d]), ApplyAll(mid, [d, c]));
  }

  lemma TwoEffects(c: Command, d: Command, id: string)
    ensures LastEffect([c, d], id) ==
            if Concerns(d, id) then LastEffect([d], id) else LastEffect([c], id)
  {
  }

  lemma {:induction false} LastEffectConcat(a: seq<Command>, b: seq<Command>, id: string)
    ensures LastEffect(a + b, id) == if LastEffect(b, id).Some? then LastEffect(b, id) else LastEffect(a, id)
  {
    if b == [] {
      assert a + b == a;
    } else {
      LastEffectConcat(a, b[..|b| - 1], id);
      assert (a + b)[..|a + b| - 1] == a + b[..|b| - 1];
    }
  }

  /** A command is redundant wherever it stands when a later one concerns the same ID. */
  lemma DropOverridden(m: Members, before: seq<Command>, c: Command, between: seq<Command>,
                       d: Command, after: seq<Command>)
    requires forall id :: Concerns(c, id) ==> Concerns(d, id)
    ensures ApplyAll(m, before + [c] + (between + [d] + after)) == ApplyAll(m, before + (between + [d] + after))
  {
    var rest := between + [d] + after;
    forall id ensures Find(ApplyAll(m, before + [c] + rest), id) == Find(ApplyAll(m, before + rest), id) {
      LastCommandDecides(m, before + [c] + rest, id);
      LastCommandDecides(m, before + rest, id);
      LastEffectConcat(before + [c], rest, id);
      LastEffectConcat(before, rest, id);
      LastEffectConcat(before, [c], id);
      LastEffectConcat(between + [d], after, id);
      LastEffectConcat(between, [d], id);
      assert [c][..0] == [] && [d][..0] == [];
    }
    SameMembers(ApplyAll(m, before + [c] + rest), ApplyAll(m, before + rest));
  }

  /** A replica's life: applying commands, and being replaced by a state restored from one of
      its own snapshots (log compaction, or installing a snapshot on another node). */
  datatype Event = Applied(c: Command) | Compacted(snapshot: seq<Member>)

  ghost function Replay(events: seq<Event>): Members {
    if events == [] then NO_MEMBERS
    else
      var m := Replay(events[..|events| - 1]);
      match events[|events| - 1]
      case Applied(c) => Apply(m, c)
      case Compacted(ms) => if IsSnapshot(m, ms) then FromList(ms) else m
  }

  function Commands(events: seq<Event>): seq<Command> {
    if events == [] then []
    else Commands(events[..|events| - 1]) +
         match events[|events| - 1] case Applied(c) => [c] case Compacted(_) => []
  }

  /** Main result: snapshotting and restoring at any number of points of a log, into a fresh or
      an arbitrary state, gives the same state as applying the whole log. */
  lemma {:induction false} CompactionTransparent(events: seq<Event>)
    ensures Replay(events) == ApplyAll(NO_MEMBERS, Commands(events)) && Valid(Replay(events))
  {
    if events != [] {
      var init, last := events[..|events| - 1], events[|events| - 1];
      CompactionTransparent(init);
      match last {
        case Applied(c) =>
          assert (Commands(init) + [c])[..|Commands(init)|] == Commands(init);
        case Compacted(ms) =>
          if IsSnapshot(Replay(init), ms) {
            SnapshotRoundTrip(Replay(init), ms);
          }
          assert Commands(events) == Commands(init);
      }
    }
  }
}
