/**
 Runtime join tokens (MintJoinToken and RedeemJoinToken in internal/store/cloud.go).  The table is
 a map from the unique token_hash to the row; SELECT and UPDATE are atomic, but a redemption is a
 SELECT followed by an UPDATE, with other redemptions in between.
 */
module JoinTokens {
  import opened Prelude

  type Hash = string
  type Id = string

  /** `expires` is None for an expires_at that is empty or does not parse. */
  datatype Row = Row(id: Id, workspace: string, maxUses: int, uses: int, revoked: bool, expires: Option<int>)

  type Table = map<Hash, Row>

  datatype Error = Invalid | Revoked | Expired | AlreadyUsed | Random | Database

  /** Times are in nanoseconds; stored ones are in whole seconds. */
  const SECOND: int := 1_000_000_000

  function Expiry(now: int, ttl: int): (e: Option<int>)
    ensures e.Some? <==> ttl > 0
    ensures e.Some? ==> now + ttl - 1_000_000_000 < e.value <= now + ttl && e.value % 1_000_000_000 == 0
  {
    if ttl > 0 then Some((now + ttl) / SECOND * SECOND) else None
  }

  /** The checks between the two statements. */
  function Check(row: Row, now: int): Result<(Id, string), Error> {
    if row.revoked then Err(Revoked)
    else if row.expires.Some? && now > row.expires.value then Err(Expired)
    else if row.uses >= row.maxUses then Err(AlreadyUsed)
    else Ok((row.id, row.workspace))
  }

  function Read(t: Table, hash: Hash, now: int): Result<(Id, string), Error> {
    if hash in t then Check(t[hash], now) else Err(Invalid)
  }

  /** UPDATE ... SET uses=uses+1 WHERE id=? */
  function Bumped(t: Table, id: Id): Table {
    map h | h in t :: if t[h].id == id then t[h].(uses := t[h].uses + 1) else t[h]
  }

  function NewRow(id: Id, workspace: string, maxUses: int, expires: Option<int>): Row {
    Row(id, workspace, if maxUses <= 0 then 1 else maxUses, 0, false, expires)
  }

  class Store {
    var table: Table

    constructor ()
      ensures table == map[]
    {
      table := map[];
    }

    /**
     A ttl that is not positive never expires; `hash` and `id` come from random tokens.  `random` and
     `inserted` are whether the random source and the INSERT succeed.
     */
    method Mint(workspace: string, maxUses: int, now: int, ttl: int, id: Id, hash: Hash, random: bool, inserted: bool)
      returns (r: Result<Row, Error>)
      requires hash !in table && forall h <- table :: table[h].id != id
      modifies this
      ensures r.Ok? <==> random && inserted
      ensures r.Ok? ==> r.value == Row(id, workspace, if maxUses <= 0 then 1 else maxUses, 0, false, Expiry(now, ttl))
                        && table == old(table)[hash := r.value]
      ensures r.Err? ==> r.error == (if random then Database else Random) && table == old(table)
    {
      var uses := maxUses;
      if uses <= 0 {
        uses := 1;
      }
      if !random {
        return Err(Random);
      }
      var expires: Option<int> := None;
      if ttl > 0 {
        expires := Some((now + ttl) / SECOND * SECOND);
      }
      var row := Row(id, workspace, uses, 0, false, expires);
      if !inserted {
        return Err(Database);
      }
      table := table[hash := row];
      r := Ok(row);
    }

    /**
     One redemption with no other in between.  `selected` and `updated` are whether the SELECT and the
     UPDATE report success, `applied` whether the UPDATE took effect.
     */
    method Redeem(hash: Hash, now: int, selected: bool, applied: bool, updated: bool) returns (r: Result<string, Error>)
      requires updated ==> applied
      modifies this
      ensures r.Ok? <==>
                && selected && updated && hash in old(table)
                && var row := old(table)[hash];
                   !row.revoked && (row.expires.Some? ==> now <= row.expires.value) && row.uses < row.maxUses
      ensures !selected ==> r == Err(Database)
      ensures selected && hash !in old(table) ==> r == Err(Invalid)
      ensures selected && hash in old(table) ==>
                var row := old(table)[hash];
                if row.revoked then r == Err(Revoked)
                else if row.expires.Some? && row.expires.value < now then r == Err(Expired)
                else if row.maxUses <= row.uses then r == Err(AlreadyUsed)
                else r == if updated then Ok(row.workspace) else Err(Database)
      ensures table.Keys == old(table).Keys
      ensures forall h <- table ::
                var row := old(table)[h];
                var used := selected && applied && hash in old(table) && row.id == old(table)[hash].id
                            && var it := old(table)[hash];
                               !it.revoked && (it.expires.Some? ==> now <= it.expires.value) && it.uses < it.maxUses;
                table[h] == if used then row.(uses := row.uses + 1) else row
    {
      if !selected {
        return Err(Database);
      }
      if hash !in table {
        return Err(Invalid);
      }
      var row := table[hash];
      if row.revoked {
        return Err(Revoked);
      }
      if row.expires.Some? && now > row.expires.value {
        return Err(Expired);
      }
      if row.uses >= row.maxUses {
        return Err(AlreadyUsed);
      }
      if applied {
        table := Bumped(table, row.id);
      }
      if !updated {
        return Err(Database);
      }
      r := Ok(row.workspace);
    }
  }

  // ---------------------------------------------------------------------------------------------
  // Redemptions in parallel.

  /** A redemption: past its checks but before its update, or returned; Lost is an applied update reported as failed. */
  datatype Call =
    | Passed(id: Id, workspace: string)
    | Succeeded(id: Id, workspace: string)
    | Lost(id: Id, workspace: string)
    | Failed(error: Error)

  datatype World = World(table: Table, calls: seq<Call>)

  datatype Label =
    | Mint(hash: Hash, id: Id, workspace: string, maxUses: int, expires: Option<int>)
    | Revoke(hash: Hash)
    | Select(hash: Hash, now: int, ok: bool)
    | Update(k: nat, applied: bool, ok: bool)

  predicate Enabled(w: World, l: Label) {
    match l
    case Mint(hash, id, _, _, _) => hash !in w.table && forall h <- w.table :: w.table[h].id != id
    case Revoke(hash) => hash in w.table
    case Select(_, _, _) => true
    case Update(k, applied, ok) => k < |w.calls| && w.calls[k].Passed? && (ok ==> applied)
  }

  function Step(w: World, l: Label): World
    requires Enabled(w, l)
  {
    match l
    case Mint(hash, id, ws, maxUses, expires) => w.(table := w.table[hash := NewRow(id, ws, maxUses, expires)])
    case Revoke(hash) => w.(table := w.table[hash := w.table[hash].(revoked := true)])
    case Select(hash, now, ok) =>
      var r := if ok then Read(w.table, hash, now) else Err(Database);
      w.(calls := w.calls + [if r.Ok? then Passed(r.value.0, r.value.1) else Failed(r.error)])
    case Update(k, applied, ok) =>
      var c := w.calls[k];
      if !applied then w.(calls := w.calls[k := Failed(Database)])
      else
        World(Bumped(w.table, c.id),
              w.calls[k := if ok then Succeeded(c.id, c.workspace) else Lost(c.id, c.workspace)])
  }

  function Exec(ls: seq<Label>): Option<World> {
    if ls == [] then Some(World(map[], []))
    else
      var n := |ls| - 1;
      match Exec(ls[..n])
      case None => None
      case Some(w) => if Enabled(w, ls[n]) then Some(Step(w, ls[n])) else None
  }

  /** Redemptions of a row that are between their read and their update, and that succeeded. */
  ghost function InFlight(w: World, row: Row): nat {
    multiset(w.calls)[Passed(row.id, row.workspace)]
  }

  ghost function Successes(w: World, row: Row): nat {
    multiset(w.calls)[Succeeded(row.id, row.workspace)]
  }

  ghost function Losses(w: World, row: Row): nat {
    multiset(w.calls)[Lost(row.id, row.workspace)]
  }

  /** The token never has more than c redemptions between their read and their update. */
  ghost predicate AtMost(ls: seq<Label>, h: Hash, c: int) {
    forall i | 0 <= i <= |ls| && Exec(ls[..i]).Some? :: Narrow(Exec(ls[..i]).value, h, c)
  }

  ghost predicate Narrow(w: World, h: Hash, c: int) {
    h in w.table ==> InFlight(w, w.table[h]) <= c
  }

  ghost predicate RowOk(w: World, h: Hash)
    requires h in w.table
  {
    w.table[h].maxUses >= 1 && Successes(w, w.table[h]) + Losses(w, w.table[h]) == w.table[h].uses
  }

  ghost predicate Bounded(w: World, h: Hash, c: int) {
    h in w.table ==> w.table[h].uses + InFlight(w, w.table[h]) <= w.table[h].maxUses - 1 + c
  }

  ghost predicate Distinct(t: Table) {
    forall g, h | g in t && h in t && g != h :: t[g].id != t[h].id
  }

  ghost predicate Inv(w: World) {
    && Distinct(w.table)
    && (forall k | 0 <= k < |w.calls| && !w.calls[k].Failed? :: Owner(w, w.calls[k]))
    && forall h <- w.table :: RowOk(w, h)
  }

  /** The call's id and workspace are those of some row. */
  ghost predicate Owner(w: World, call: Call)
    requires !call.Failed?
  {
    exists h <- w.table :: w.table[h].id == call.id && w.table[h].workspace == call.workspace
  }

  lemma UpdateCounts(calls: seq<Call>, k: nat, to: Call, x: Call)
    requires k < |calls|
    ensures multiset(calls[k := to])[x] ==
            multiset(calls)[x] - (if calls[k] == x then 1 else 0) + (if to == x then 1 else 0)
  {
  }

  lemma AppendCounts(calls: seq<Call>, c: Call, x: Call)
    ensures multiset(calls + [c])[x] == multiset(calls)[x] + if c == x then 1 else 0
  {
  }

  lemma OwnerStays(w: World, w': World, call: Call)
    requires !call.Failed? && Owner(w, call)
    requires forall h <- w.table ::
               h in w'.table && w'.table[h].id == w.table[h].id && w'.table[h].workspace == w.table[h].workspace
    ensures Owner(w', call)
  {
    var h :| h in w.table && w.table[h].id == call.id && w.table[h].workspace == call.workspace;
    assert h in w'.table;
  }

  lemma StepKeepsOwners(w: World, l: Label)
    requires Inv(w) && Enabled(w, l)
    ensures var w' := Step(w, l);
            forall k | 0 <= k < |w'.calls| && !w'.calls[k].Failed? :: Owner(w', w'.calls[k])
  {
    hide RowOk;
    var w' := Step(w, l);
    forall k | 0 <= k < |w'.calls| && !w'.calls[k].Failed?
      ensures Owner(w', w'.calls[k])
    {
      if k == |w.calls| {
        assert l.hash in w'.table;
      } else if l.Update? && k == l.k {
        OwnerStays(w, w', w.calls[k]);
        OwnerOf(w', w.calls[k], w'.calls[k]);
      } else {
        OwnerStays(w, w', w.calls[k]);
      }
    }
  }

  lemma OwnerOf(w: World, call: Call, same: Call)
    requires !call.Failed? && !same.Failed? && same.id == call.id && same.workspace == call.workspace
    ensures Owner(w, call) ==> Owner(w, same)
  {
  }

  /** Once a token is revoked, uses plus redemptions in flight cannot grow. */
  ghost predicate Drains(w: World, w': World, h: Hash)
    requires h in w.table && h in w'.table
  {
    w.table[h].revoked ==>
      w'.table[h].revoked
      && w'.table[h].uses + InFlight(w', w'.table[h]) <= w.table[h].uses + InFlight(w, w.table[h])
  }

  /** What a step that counts right keeps of a row. */
  ghost predicate RowKept(w: World, w': World, h: Hash)
    requires h in w.table
  {
    && h in w'.table && RowOk(w', h) && Drains(w, w', h)
    && w'.table[h].maxUses == w.table[h].maxUses
    && var used, used' := w.table[h].uses + InFlight(w, w.table[h]), w'.table[h].uses + InFlight(w', w'.table[h]);
       used' <= used || w'.table[h].uses < w.table[h].maxUses
  }

  lemma SelectMoves(w: World, l: Label, h: Hash)
    requires Distinct(w.table) && l.Select? && h in w.table
    ensures var w', row := Step(w, l), w.table[h];
            && w'.table == w.table && Successes(w', row) == Successes(w, row) && Losses(w', row) == Losses(w, row)
            && (InFlight(w', row) == InFlight(w, row)
                || (InFlight(w', row) == InFlight(w, row) + 1 && row.uses < row.maxUses && !row.revoked))
  {
    var row, call := w.table[h], Step(w, l).calls[|w.calls|];
    AppendCounts(w.calls, call, Passed(row.id, row.workspace));
    AppendCounts(w.calls, call, Succeeded(row.id, row.workspace));
    AppendCounts(w.calls, call, Lost(row.id, row.workspace));
  }

  lemma SelectKeepsRow(w: World, l: Label, h: Hash)
    requires Inv(w) && l.Select? && h in w.table
    ensures RowKept(w, Step(w, l), h)
  {
    assert RowOk(w, h);
    SelectMoves(w, l, h);
    hide Inv, Step, InFlight, Successes, Losses;
  }

  lemma OwnerIsUnique(w: World, call: Call, h: Hash)
    requires Distinct(w.table) && !call.Failed? && Owner(w, call) && h in w.table
    ensures w.table[h].id == call.id ==> w.table[h].workspace == call.workspace
  {
    var g :| g in w.table && w.table[g].id == call.id && w.table[g].workspace == call.workspace;
  }

  lemma StepKeepsDistinct(w: World, l: Label)
    requires Distinct(w.table) && Enabled(w, l)
    ensures Distinct(Step(w, l).table)
  {
  }

  /** How an update moves its call, and the uses of its row. */
  lemma UpdateMoves(w: World, l: Label, h: Hash)
    requires Distinct(w.table) && l.Update? && Enabled(w, l) && Owner(w, w.calls[l.k]) && h in w.table
    ensures var w' := Step(w, l); var row, mine := w.table[h], if w.table[h].id == w.calls[l.k].id then 1 else 0;
            && w'.table.Keys == w.table.Keys
            && w'.table[h] == row.(uses := row.uses + if l.applied then mine else 0)
            && InFlight(w', row) == InFlight(w, row) - mine
            && Successes(w', row) == Successes(w, row) + (if l.applied && l.ok then mine else 0)
            && Losses(w', row) == Losses(w, row) + (if l.applied && !l.ok then mine else 0)
  {
    var row := w.table[h];
    OwnerIsUnique(w, w.calls[l.k], h);
    hide Owner, Distinct;
    var to := Step(w, l).calls[l.k];
    UpdateCounts(w.calls, l.k, to, Passed(row.id, row.workspace));
    UpdateCounts(w.calls, l.k, to, Succeeded(row.id, row.workspace));
    UpdateCounts(w.calls, l.k, to, Lost(row.id, row.workspace));
  }

  lemma UpdateKeepsRow(w: World, l: Label, h: Hash)
    requires Inv(w) && l.Update? && Enabled(w, l) && h in w.table
    ensures RowKept(w, Step(w, l), h)
  {
    assert RowOk(w, h) && Owner(w, w.calls[l.k]);
    hide Owner, Distinct;
    UpdateMoves(w, l, h);
    SameCounts(Step(w, l), h, w.table[h]);
    hide Step, InFlight, Successes, Losses;
  }

  /** The counts of a row only depend on its id and workspace. */
  lemma SameCounts(w: World, h: Hash, row: Row)
    requires h in w.table && w.table[h].id == row.id && w.table[h].workspace == row.workspace
    ensures InFlight(w, w.table[h]) == InFlight(w, row)
    ensures Successes(w, w.table[h]) == Successes(w, row) && Losses(w, w.table[h]) == Losses(w, row)
  {
  }

  lemma OtherStepKeepsRow(w: World, l: Label, h: Hash)
    requires Inv(w) && Enabled(w, l) && h in w.table && (l.Mint? || l.Revoke?)
    ensures RowKept(w, Step(w, l), h)
  {
    assert RowOk(w, h);
    hide Inv, Distinct;
    SameCounts(Step(w, l), h, w.table[h]);
  }

  lemma StepKeepsRow(w: World, l: Label, h: Hash)
    requires Inv(w) && Enabled(w, l) && h in w.table
    ensures RowKept(w, Step(w, l), h)
  {
    hide Inv, RowKept, Step;
    match l
    case Select(_, _, _) => SelectKeepsRow(w, l, h);
    case Update(_, _, _) => UpdateKeepsRow(w, l, h);
    case _ => OtherStepKeepsRow(w, l, h);
  }

  lemma NewRowOk(w: World, l: Label)
    requires Inv(w) && Enabled(w, l) && l.Mint?
    ensures RowOk(Step(w, l), l.hash) && InFlight(Step(w, l), Step(w, l).table[l.hash]) == 0
  {
    var row := Step(w, l).table[l.hash];
    forall x | x in multiset(w.calls) && !x.Failed?
      ensures x.id != row.id
    {
      var k :| 0 <= k < |w.calls| && w.calls[k] == x;
      assert Owner(w, w.calls[k]);
    }
  }

  lemma StepKeepsInv(w: World, l: Label)
    requires Inv(w) && Enabled(w, l)
    ensures Inv(Step(w, l))
  {
    StepKeepsOwners(w, l);
    StepKeepsDistinct(w, l);
    hide RowOk, Owner, Distinct;
    var w' := Step(w, l);
    forall h | h in w'.table
      ensures RowOk(w', h)
    {
      if h in w.table {
        StepKeepsRow(w, l, h);
      } else {
        NewRowOk(w, l);
      }
    }
  }

  /** A redemption only passes while a use is left, so room for c of them is kept. */
  lemma StepKeepsBound(w: World, l: Label, h: Hash, c: nat)
    requires Inv(w) && Enabled(w, l) && Bounded(w, h, c) && Narrow(Step(w, l), h, c)
    ensures Bounded(Step(w, l), h, c)
  {
    hide Inv, RowOk, Drains, InFlight;
    var w' := Step(w, l);
    if h in w.table {
      StepKeepsRow(w, l, h);
    } else if h in w'.table {
      NewRowOk(w, l);
    }
  }

  lemma {:induction false} Reachable(ls: seq<Label>)
    requires Exec(ls).Some?
    ensures Inv(Exec(ls).value)
  {
    hide Inv, Step, Enabled;
    if ls == [] {
      NothingInv();
    } else {
      var n := |ls| - 1;
      Reachable(ls[..n]);
      StepKeepsInv(Exec(ls[..n]).value, ls[n]);
    }
  }

  lemma NothingInv()
    ensures Inv(World(map[], []))
  {
  }

  lemma {:induction false} ReachableBound(ls: seq<Label>, h: Hash, c: nat)
    requires Exec(ls).Some? && AtMost(ls, h, c)
    ensures Bounded(Exec(ls).value, h, c)
  {
    hide Inv, Step, Enabled, AtMost, Narrow;
    if ls == [] {
    } else {
      hide Bounded;
      var n := |ls| - 1;
      assert ls == ls[..n] + [ls[n]];
      AtMostBefore(ls[..n], ls[n], h, c);
      ReachableBound(ls[..n], h, c);
      Reachable(ls[..n]);
      StepKeepsBound(Exec(ls[..n]).value, ls[n], h, c);
    }
  }

  /**
   Join-token bound.  A token with at most c redemptions of its own between their read and their
   update is used at most max_uses + c - 1 times, whatever happens to other tokens; every use is one
   success or one update reported as failed, and what may still come from redemptions in flight is
   within the same bound.  One at a time, max_uses holds.
   */
  lemma JoinBound(ls: seq<Label>, c: nat, h: Hash)
    requires Exec(ls).Some? && AtMost(ls, h, c) && h in Exec(ls).value.table
    ensures var w := Exec(ls).value; var row := w.table[h];
            && row.uses + InFlight(w, row) <= row.maxUses - 1 + c
            && Successes(w, row) + Losses(w, row) == row.uses
            && (c == 1 ==> row.uses <= row.maxUses)
  {
    hide Exec, AtMost, InFlight, Successes, Losses;
    Reachable(ls);
    ReachableBound(ls, h, c);
    assert RowOk(Exec(ls).value, h);
  }

  lemma AtMostBefore(ls: seq<Label>, l: Label, h: Hash, c: nat)
    requires AtMost(ls + [l], h, c) && Exec(ls + [l]).Some?
    ensures Exec(ls).Some? && AtMost(ls, h, c)
    ensures Enabled(Exec(ls).value, l) && Exec(ls + [l]).value == Step(Exec(ls).value, l)
    ensures Narrow(Step(Exec(ls).value, l), h, c)
  {
    hide Narrow, Step, Enabled;
    var all := ls + [l];
    assert all[..|ls|] == ls && all[..|all|] == all;
    forall i | 0 <= i <= |ls|
      ensures all[..i] == ls[..i]
    {
    }
  }

  lemma LastStep(ls: seq<Label>, l: Label)
    requires Exec(ls + [l]).Some?
    ensures Exec(ls).Some? && Enabled(Exec(ls).value, l) && Exec(ls + [l]).value == Step(Exec(ls).value, l)
  {
    assert (ls + [l])[..|ls|] == ls;
  }

  /**
   A read lets one more redemption of a token into flight exactly when it works, is of this token, and
   finds it neither revoked, nor expired, nor used up; it changes nothing else.
   */
  lemma SelectAdmits(ls: seq<Label>, hash: Hash, now: int, ok: bool, h: Hash)
    requires Exec(ls).Some? && h in Exec(ls).value.table
    ensures Exec(ls + [Select(hash, now, ok)]).Some?
    ensures var w, w' := Exec(ls).value, Exec(ls + [Select(hash, now, ok)]).value;
            var row := w.table[h];
            var admits := ok && hash == h && !row.revoked && (row.expires.Some? ==> now <= row.expires.value)
                          && row.uses < row.maxUses;
            && w'.table == w.table && |w'.calls| == |w.calls| + 1 && w.calls <= w'.calls
            && InFlight(w', row) == InFlight(w, row) + (if admits then 1 else 0)
  {
    hide Inv;
    var l := Select(hash, now, ok);
    assert (ls + [l])[..|ls|] == ls;
    Reachable(ls);
    SelectCounts(Exec(ls).value, l, h);
    hide Step, InFlight, Exec;
  }

  lemma SelectCounts(w: World, l: Label, h: Hash)
    requires Inv(w) && l.Select? && h in w.table
    ensures var row := w.table[h];
            var admits := l.ok && l.hash == h && !row.revoked && (row.expires.Some? ==> l.now <= row.expires.value)
                          && row.uses < row.maxUses;
            InFlight(Step(w, l), row) == InFlight(w, row) + if admits then 1 else 0
  {
    var row := w.table[h];
    AppendCounts(w.calls, Step(w, l).calls[|w.calls|], Passed(row.id, row.workspace));
    hide RowOk, Owner;
  }

  /** A revoked token only serves the redemptions that had already passed their checks. */
  lemma {:induction false} RevokedTokenDrains(ls: seq<Label>, more: seq<Label>, h: Hash)
    requires Exec(ls + more).Some?
    requires Exec(ls).Some? && h in Exec(ls).value.table && Exec(ls).value.table[h].revoked
    ensures h in Exec(ls + more).value.table && Drains(Exec(ls).value, Exec(ls + more).value, h)
  {
    hide Exec, Inv, Step, Enabled, RowOk;
    if more == [] {
      assert ls + more == ls;
    } else {
      var n := |more| - 1;
      assert ls + more == ls + more[..n] + [more[n]];
      LastStep(ls + more[..n], more[n]);
      RevokedTokenDrains(ls, more[..n], h);
      Reachable(ls + more[..n]);
      StepKeepsRow(Exec(ls + more[..n]).value, more[n], h);
    }
  }

  /** Which statements a run can go on with. */
  lemma GoesOnWith(ls: seq<Label>, l: Label)
    requires Exec(ls).Some?
    ensures var w := Exec(ls).value;
            Exec(ls + [l]).Some? <==>
            match l
            case Mint(hash, id, _, _, _) => hash !in w.table && forall h <- w.table :: w.table[h].id != id
            case Revoke(hash) => hash in w.table
            case Select(_, _, _) => true
            case Update(k, applied, ok) => k < |w.calls| && w.calls[k].Passed? && (applied || !ok)
  {
    assert (ls + [l])[..|ls|] == ls;
    hide Step;
  }

  /** Revoking takes effect at once and for good. */
  lemma RevokeDrains(ls: seq<Label>, h: Hash, more: seq<Label>)
    requires Exec(ls + [Revoke(h)] + more).Some?
    ensures Exec(ls).Some? && h in Exec(ls).value.table && h in Exec(ls + [Revoke(h)] + more).value.table
    ensures var w, w' := Exec(ls).value, Exec(ls + [Revoke(h)] + more).value;
            var row, row' := w.table[h], w'.table[h];
            row'.revoked && row'.uses + InFlight(w', row') <= row.uses + InFlight(w, row)
  {
    hide Inv, InFlight;
    Begins(ls + [Revoke(h)], more);
    LastStep(ls, Revoke(h));
    RevokedTokenDrains(ls + [Revoke(h)], more, h);
    var w := Exec(ls).value;
    SameCounts(Step(w, Revoke(h)), h, w.table[h]);
    InFlightOfCalls(w, Step(w, Revoke(h)), w.table[h]);
  }

  lemma InFlightOfCalls(w: World, w': World, row: Row)
    requires w.calls == w'.calls
    ensures InFlight(w, row) == InFlight(w', row)
  {
  }

  lemma {:induction false} Begins(ls: seq<Label>, more: seq<Label>)
    requires Exec(ls + more).Some?
    ensures Exec(ls).Some?
  {
    if more == [] {
      assert ls + more == ls;
    } else {
      var n := |more| - 1;
      assert (ls + more)[..|ls + more| - 1] == ls + more[..n];
      Begins(ls, more[..n]);
    }
  }

  /** A row is as it was minted but for its uses and its revocation. */
  lemma {:induction false} MintedAs(ls: seq<Label>, h: Hash) returns (maxUses: int)
    requires Exec(ls).Some? && h in Exec(ls).value.table
    ensures var row := Exec(ls).value.table[h];
            && Mint(h, row.id, row.workspace, maxUses, row.expires) in ls
            && row.maxUses == if maxUses <= 0 then 1 else maxUses
  {
    var n := |ls| - 1;
    var w := Exec(ls[..n]).value;
    assert ls == ls[..n] + [ls[n]];
    if h in w.table {
      maxUses := MintedAs(ls[..n], h);
    } else {
      maxUses := ls[n].maxUses;
    }
  }

  // ---------------------------------------------------------------------------------------------
  // The bound is reached.

  const HASH: Hash := "h"

  /** Only one token, never expiring, with `uses` uses and `flying` redemptions in flight. */
  ghost predicate OneToken(w: World, maxUses: int, uses: int, flying: nat) {
    && w.table == map[HASH := Row("t", "w", maxUses, uses, false, None)]
    && InFlight(w, w.table[HASH]) == flying
  }

  ghost predicate Reaches(ls: seq<Label>, c: int, maxUses: int, uses: int, flying: nat) {
    Exec(ls).Some? && AtMost(ls, HASH, c) && OneToken(Exec(ls).value, maxUses, uses, flying)
  }

  lemma OneTokenIsNarrow(w: World, maxUses: int, uses: int, flying: nat, c: int)
    requires OneToken(w, maxUses, uses, flying) && flying <= c
    ensures Narrow(w, HASH, c)
  {
    hide InFlight;
  }

  lemma AtMostThen(ls: seq<Label>, l: Label, c: int)
    requires Exec(ls).Some? && AtMost(ls, HASH, c) && Enabled(Exec(ls).value, l)
    requires Narrow(Step(Exec(ls).value, l), HASH, c)
    ensures AtMost(ls + [l], HASH, c) && Exec(ls + [l]) == Some(Step(Exec(ls).value, l))
  {
    hide Narrow, Step, Enabled;
    var r := ls + [l];
    assert r[..|ls|] == ls && r[..|r|] == r;
    forall i | 0 <= i <= |r| && Exec(r[..i]).Some?
      ensures Narrow(Exec(r[..i]).value, HASH, c)
    {
      if i <= |ls| {
        assert r[..i] == ls[..i];
      }
    }
  }

  lemma Extend(ls: seq<Label>, l: Label, c: int, maxUses: int, uses: int, flying: nat) returns (r: seq<Label>)
    requires Exec(ls).Some? && AtMost(ls, HASH, c) && Enabled(Exec(ls).value, l)
    requires OneToken(Step(Exec(ls).value, l), maxUses, uses, flying) && flying <= c
    ensures r == ls + [l] && Reaches(r, c, maxUses, uses, flying)
  {
    hide Narrow, Step, Enabled, AtMost, Exec, OneToken;
    r := ls + [l];
    OneTokenIsNarrow(Step(Exec(ls).value, l), maxUses, uses, flying, c);
    AtMostThen(ls, l, c);
  }

  lemma SelectOne(ls: seq<Label>, c: int, maxUses: int, uses: int, flying: nat) returns (r: seq<Label>)
    requires Reaches(ls, c, maxUses, uses, flying) && uses < maxUses && flying < c
    ensures Reaches(r, c, maxUses, uses, flying + 1)
  {
    var w := Exec(ls).value;
    AppendCounts(w.calls, Passed("t", "w"), Passed("t", "w"));
    r := Extend(ls, Select(HASH, 0, true), c, maxUses, uses, flying + 1);
  }

  lemma UpdateOne(ls: seq<Label>, c: int, maxUses: int, uses: int, flying: nat) returns (r: seq<Label>)
    requires Reaches(ls, c, maxUses, uses, flying) && flying > 0
    ensures Reaches(r, c, maxUses, uses + 1, flying - 1)
  {
    var w := Exec(ls).value;
    assert Passed("t", "w") in w.calls;
    var k :| 0 <= k < |w.calls| && w.calls[k] == Passed("t", "w");
    UpdateCounts(w.calls, k, Succeeded("t", "w"), Passed("t", "w"));
    assert ls[..|ls|] == ls;
    r := Extend(ls, Update(k, true, true), c, maxUses, uses + 1, flying - 1);
  }

  lemma MintOne(c: int, maxUses: int) returns (ls: seq<Label>)
    requires c >= 1 && maxUses >= 1
    ensures Reaches(ls, c, maxUses, 0, 0)
  {
    assert Exec([]).Some?;
    ls := Extend([], Mint(HASH, "t", "w", maxUses, None), c, maxUses, 0, 0);
  }

  lemma {:induction false} OneByOne(c: int, maxUses: int, uses: nat) returns (ls: seq<Label>)
    requires c >= 1 && uses <= maxUses && maxUses >= 1
    ensures Reaches(ls, c, maxUses, uses, 0)
    decreases uses
  {
    hide Reaches;
    if uses == 0 {
      ls := MintOne(c, maxUses);
    } else {
      ls := OneByOne(c, maxUses, uses - 1);
      ls := SelectOne(ls, c, maxUses, uses - 1, 0);
      ls := UpdateOne(ls, c, maxUses, uses - 1, 1);
    }
  }

  /** For every c and max_uses some run with at most c redemptions in flight uses all of the bound. */
  lemma BoundIsReached(c: nat, maxUses: int) returns (ls: seq<Label>)
    requires c >= 1 && maxUses >= 1
    ensures Exec(ls).Some? && AtMost(ls, HASH, c)
    ensures HASH in Exec(ls).value.table
    ensures var row := Exec(ls).value.table[HASH]; row.maxUses == maxUses && row.uses == maxUses + c - 1
  {
    ls := FillUp(c, maxUses);
  }

  lemma FillUp(c: nat, maxUses: int) returns (ls: seq<Label>)
    requires c >= 1 && maxUses >= 1
    ensures Reaches(ls, c, maxUses, maxUses - 1 + c, 0)
  {
    hide Reaches;
    ls := OneByOne(c, maxUses, maxUses - 1);
    var k := 0;
    while k < c
      invariant k <= c && Reaches(ls, c, maxUses, maxUses - 1, k)
    {
      ls := SelectOne(ls, c, maxUses, maxUses - 1, k);
      k := k + 1;
    }
    while k > 0
      invariant 0 <= k <= c && Reaches(ls, c, maxUses, maxUses - 1 + c - k, k)
    {
      ls := UpdateOne(ls, c, maxUses, maxUses - 1 + c - k, k);
      k := k - 1;
    }
  }
}
