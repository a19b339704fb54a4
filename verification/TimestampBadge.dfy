/** The pending/applied badge of secrets and the pending/locked badge of flake inputs,
    both read off two timestamps. They are compared with the history of edits and marks. */
module TimestampBadge {
  import opened Base
  import opened FlakeFile
  import opened Rows

  datatype Stamps = Stamps(updated: int, applied: Option<int>)

  /** The badge reads "applied" or "locked". */
  predicate Current(s: Stamps) {
    s.applied.Some? && s.applied.value >= s.updated
  }

  function Edit(s: Stamps, now: int): Stamps {
    s.(updated := now)
  }

  /** The rows, and the timestamps beside those of secrets and inputs. */
  datatype Tables = Tables(rows: Rows, secretStamps: map<int, Stamps>, inputStamps: map<int, Stamps>)

  /** Touched says whether the second statement of an attach or detach, the one that bumps
      the timestamp, succeeds. */
  datatype Op =
    | Create(id: int, secret: Secret, targets: seq<int>)
    | Save(id: int, owner: string, group: string, fileMode: string, targets: seq<int>)
    | Attach(id: int, workload: int, touched: bool)
    | Detach(id: int, workload: int, touched: bool)
    | Touch(id: int)
    | Mark(id: int)
    | Delete(id: int)
    | CreateInput(id: int, input: FlakeInput)
    | SaveInput(id: int, url: string, follows: bool)
    | MarkInput(id: int)
    | DeleteInput(id: int)
    | AddWorkload(id: int, row: Workload)
    | DropWorkload(id: int)

  /** An operation and the time it stamps. */
  datatype Timed = Timed(op: Op, now: int)

  function Touched(t: Tables, id: int, now: int): Tables {
    if id in t.secretStamps then t.(secretStamps := t.secretStamps[id := Edit(t.secretStamps[id], now)]) else t
  }

  function StepSecret(t: Tables, op: Op, now: int): Tables {
    match op
    case Create(id, secret, targets) =>
      if id in t.rows.secrets || SecretNameTaken(t.rows, secret.name) || !MountsAcceptable(t.rows, targets) then t
      else t.(rows := PutSecret(t.rows, id, secret, targets), secretStamps := t.secretStamps[id := Stamps(now, None)])
    case Save(id, owner, group, fileMode, targets) =>
      if id !in t.rows.secrets || !MountsAcceptable(t.rows, targets) then t
      else Touched(t.(rows := PutSecret(t.rows, id, Secret(t.rows.secrets[id].name, owner, group, fileMode), targets)), id, now)
    case Attach(id, w, touched) =>
      if id !in t.rows.secrets || w !in t.rows.workloads || (id, w) in t.rows.mounts then t
      else
        var attached := t.(rows := t.rows.(mounts := t.rows.mounts + {(id, w)}));
        if touched then Touched(attached, id, now) else attached
    case Detach(id, w, touched) =>
      if (id, w) !in t.rows.mounts then t
      else
        var detached := t.(rows := t.rows.(mounts := t.rows.mounts - {(id, w)}));
        if touched then Touched(detached, id, now) else detached
    case Touch(id) => Touched(t, id, now)
    case Mark(id) =>
      if id !in t.secretStamps then t
      else t.(secretStamps := t.secretStamps[id := t.secretStamps[id].(applied := Some(now))])
    case Delete(id) => t.(rows := DeleteSecret(t.rows, id), secretStamps := t.secretStamps - {id})
    case _ => t
  }

  function StepInput(t: Tables, op: Op, now: int): Tables {
    var inputs := t.rows.inputs;
    match op
    case CreateInput(id, input) =>
      if id in inputs || InputNameTaken(t.rows, input.name) then t
      else t.(rows := t.rows.(inputs := inputs[id := input]), inputStamps := t.inputStamps[id := Stamps(now, None)])
    case SaveInput(id, url, follows) =>
      if id !in inputs || id !in t.inputStamps then t
      else
        t.(rows := t.rows.(inputs := inputs[id := FlakeInput(inputs[id].name, url, follows)]),
           inputStamps := t.inputStamps[id := Edit(t.inputStamps[id], now)])
    case MarkInput(id) =>
      if id !in t.inputStamps then t
      else t.(inputStamps := t.inputStamps[id := t.inputStamps[id].(applied := Some(now))])
    case DeleteInput(id) => t.(rows := t.rows.(inputs := inputs - {id}), inputStamps := t.inputStamps - {id})
    case _ => t
  }

  /** What each operation leaves; a failed transaction leaves everything as it was. */
  function Step(t: Tables, e: Timed): Tables {
    match e.op
    case AddWorkload(id, row) =>
      if id in t.rows.workloads then t else t.(rows := t.rows.(workloads := t.rows.workloads[id := row]))
    case DropWorkload(id) => t.(rows := DeleteWorkload(t.rows, id))
    case _ => StepInput(StepSecret(t, e.op, e.now), e.op, e.now)
  }

  const EMPTY := Tables(NO_ROWS, map[], map[])

  function Run(es: seq<Timed>): Tables {
    if es == [] then EMPTY else Step(Run(es[..|es| - 1]), es[|es| - 1])
  }

  // ---- The history ----

  datatype Word = Edited | Marked

  /** What a user would say an operation did to a secret: nothing, if it was refused or
      changed nothing. Losing a mount because its workload goes is not an edit. */
  function HeardOfSecret(r: Rows, op: Op, id: int): Option<Word> {
    match op
    case Create(i, secret, targets) =>
      if i == id && id !in r.secrets && !SecretNameTaken(r, secret.name) && MountsAcceptable(r, targets)
      then Some(Edited) else None
    case Save(i, _, _, _, targets) =>
      if i == id && id in r.secrets && MountsAcceptable(r, targets) then Some(Edited) else None
    case Attach(i, w, _) =>
      if i == id && id in r.secrets && w in r.workloads && (id, w) !in r.mounts then Some(Edited) else None
    case Detach(i, w, _) => if i == id && (id, w) in r.mounts then Some(Edited) else None
    case Touch(i) => if i == id && id in r.secrets then Some(Edited) else None
    case Mark(i) => if i == id && id in r.secrets then Some(Marked) else None
    case _ => None
  }

  function HeardOfInput(r: Rows, op: Op, id: int): Option<Word> {
    match op
    case CreateInput(i, input) =>
      if i == id && id !in r.inputs && !InputNameTaken(r, input.name) then Some(Edited) else None
    case SaveInput(i, _, _) => if i == id && id in r.inputs then Some(Edited) else None
    case MarkInput(i) => if i == id && id in r.inputs then Some(Marked) else None
    case _ => None
  }

  datatype Subject = TheSecret(id: int) | TheInput(id: int)

  function Heard(r: Rows, op: Op, who: Subject): Option<Word> {
    match who
    case TheSecret(id) => HeardOfSecret(r, op, id)
    case TheInput(id) => HeardOfInput(r, op, id)
  }

  function OrElse(word: Option<Word>, earlier: Option<Word>): Option<Word> {
    if word.Some? then word else earlier
  }

  /** The last thing that was heard of a secret or input. */
  function LastHeard(es: seq<Timed>, who: Subject): Option<Word> {
    if es == [] then None
    else OrElse(Heard(Run(es[..|es| - 1]).rows, es[|es| - 1].op, who), LastHeard(es[..|es| - 1], who))
  }

  predicate ClockAdvances(es: seq<Timed>) {
    forall i, j :: 0 <= i < j < |es| ==> es[i].now < es[j].now
  }

  predicate Bumps(op: Op) {
    (op.Attach? || op.Detach?) ==> op.touched
  }

  predicate TouchesSucceed(es: seq<Timed>) {
    forall i :: 0 <= i < |es| ==> Bumps(es[i].op)
  }

  /** Every row has its stamps, and mounts belong to rows. */
  predicate Closed(t: Tables) {
    && t.secretStamps.Keys == t.rows.secrets.Keys && t.inputStamps.Keys == t.rows.inputs.Keys
    && forall m :: m in t.rows.mounts ==> m.0 in t.rows.secrets && m.1 in t.rows.workloads
  }

  function StampsOf(t: Tables, who: Subject): Option<Stamps> {
    match who
    case TheSecret(id) => if id in t.secretStamps then Some(t.secretStamps[id]) else None
    case TheInput(id) => if id in t.inputStamps then Some(t.inputStamps[id]) else None
  }

  /** The stamps lie in the past, and the badge is what was last heard. */
  predicate Faithful(stamps: Option<Stamps>, heard: Option<Word>, now: int) {
    stamps.Some? ==>
      && stamps.value.updated <= now && (stamps.value.applied.Some? ==> stamps.value.applied.value <= now)
      && (Current(stamps.value) <==> heard == Some(Marked))
  }

  lemma SecretOpKeepsClosed(t: Tables, op: Op, now: int)
    requires Closed(t)
    ensures Closed(StepSecret(t, op, now))
  {
  }

  lemma InputOpKeepsClosed(t: Tables, op: Op, now: int)
    requires Closed(t)
    ensures Closed(StepInput(t, op, now))
  {
  }

  lemma StepKeepsClosed(t: Tables, e: Timed)
    requires Closed(t)
    ensures Closed(Step(t, e))
  {
    SecretOpKeepsClosed(t, e.op, e.now);
    InputOpKeepsClosed(StepSecret(t, e.op, e.now), e.op, e.now);
  }

  /** An operation stamps what it is heard to do, and nothing else. */
  lemma StampsFollow(t: Tables, e: Timed, who: Subject)
    requires Closed(t) && Bumps(e.op)
    ensures var before, after := StampsOf(t, who), StampsOf(Step(t, e), who);
            match Heard(t.rows, e.op, who)
            case Some(Edited) => after.Some? && after.value.updated == e.now
                                 && after.value.applied == if before.Some? then before.value.applied else None
            case Some(Marked) => after.Some? && before.Some? && after == Some(before.value.(applied := Some(e.now)))
            case None => after == before || after == None
  {
  }

  function LastTime(es: seq<Timed>): int {
    if es == [] then 0 else es[|es| - 1].now
  }

  /** After any operations under a clock that always moves, a secret reads applied, and an
      input locked, exactly when the last effective thing that happened to it was a mark. */
  lemma {:induction false} BadgeIsLastHeard(es: seq<Timed>, who: Subject)
    requires ClockAdvances(es) && TouchesSucceed(es)
    ensures Faithful(StampsOf(Run(es), who), LastHeard(es, who), LastTime(es)) && Closed(Run(es))
  {
    if es != [] {
      var before := es[..|es| - 1];
      BadgeIsLastHeard(before, who);
      StepKeepsClosed(Run(before), es[|es| - 1]);
      StampsFollow(Run(before), es[|es| - 1], who);
    }
  }

  /** Attaching what is attached, or detaching what is not, changes nothing at all. */
  lemma RepeatsChangeNothing(t: Tables, id: int, w: int, first: int, again: int)
    requires Closed(t)
    ensures var once := Step(t, Timed(Attach(id, w, true), first)); Step(once, Timed(Attach(id, w, true), again)) == once
    ensures var once := Step(t, Timed(Detach(id, w, true), first)); Step(once, Timed(Detach(id, w, true), again)) == once
  {
  }

  /** An edit that follows a mark is seen exactly when the clock moved between the two. */
  lemma SameInstantMisleads(t: Tables, id: int, marked: int, edited: int)
    requires Closed(t) && id in t.rows.secrets && marked <= edited
    ensures var s := Step(Step(t, Timed(Mark(id), marked)), Timed(Touch(id), edited));
            id in s.secretStamps && (Current(s.secretStamps[id]) <==> marked == edited)
  {
  }

  /** An attach or detach whose second statement fails changes the mounts without
      reopening the badge: it still reads applied exactly when it did before. */
  lemma FailedTouchMisleadsExactly(t: Tables, id: int, w: int, attach: bool, now: int)
    requires Closed(t) && id in t.rows.secrets && w in t.rows.workloads && ((id, w) in t.rows.mounts <==> !attach)
    ensures var op := if attach then Attach(id, w, false) else Detach(id, w, false);
            var s := Step(t, Timed(op, now));
            && ((id, w) in s.rows.mounts <==> attach) && HeardOfSecret(t.rows, op, id) == Some(Edited)
            && id in s.secretStamps && (Current(s.secretStamps[id]) <==> Current(t.secretStamps[id]))
  {
  }

  // ---- The program ----

  class Store {
    var rows: Rows
    var secretStamps: map<int, Stamps>
    var inputStamps: map<int, Stamps>

    ghost function Abs(): Tables
      reads this
    {
      Tables(rows, secretStamps, inputStamps)
    }

    constructor ()
      ensures Abs() == EMPTY
    {
      rows, secretStamps, inputStamps := NO_ROWS, map[], map[];
    }

    /** replaceMounts, inside the caller's transaction: one insert after another. It
        succeeds exactly when the keys allow the new set, and then the secret has exactly
        those mounts. */
    method ReplaceMountRows(sid: int, targets: seq<int>) returns (ok: bool, mounts: set<(int, int)>)
      ensures ok <==> MountsAcceptable(rows, targets)
      ensures ok ==> mounts == ReplaceMounts(rows, sid, targets) && MountsReplaced(rows.mounts, mounts, sid, targets)
    {
      mounts := set m | m in rows.mounts && m.0 != sid;
      for i := 0 to |targets|
        invariant MountsAcceptable(rows, targets[..i])
        invariant mounts == ReplaceMounts(rows, sid, targets[..i])
      {
        if (sid, targets[i]) in mounts {
          ghost var j :| 0 <= j < i && targets[..i][j] == targets[i];
          assert targets[j] == targets[i];
          return false, mounts;
        }
        if targets[i] !in rows.workloads {
          return false, mounts;
        }
        mounts := mounts + {(sid, targets[i])};
      }
      assert targets[..|targets|] == targets;
      ReplaceMountsReplaces(rows, sid, targets);
      ok := true;
    }

    method CreateSecret(id: int, secret: Secret, targets: seq<int>, now: int) returns (ok: bool)
      requires Closed(Abs()) && id !in rows.secrets
      modifies this
      ensures Abs() == Step(old(Abs()), Timed(Create(id, secret, targets), now))
      ensures ok <==> id in rows.secrets
      ensures ok ==> SecretPut(old(rows), rows, id, secret.name, secret.owner, secret.group, secret.mode, targets)
      ensures !ok ==> rows == old(rows)
    {
      if SecretNameTaken(rows, secret.name) {
        return false;
      }
      var mounts;
      ok, mounts := ReplaceMountRows(id, targets);
      if ok {
        rows := rows.(secrets := rows.secrets[id := secret], mounts := mounts);
        secretStamps := secretStamps[id := Stamps(now, None)];
      }
    }

    /** An update of a secret that is gone touches no row, and fails if it names workloads:
        their mounts would have no secret. */
    method UpdateSecret(id: int, owner: string, group: string, fileMode: string, targets: seq<int>, now: int)
        returns (ok: bool)
      requires Closed(Abs())
      modifies this
      ensures Abs() == Step(old(Abs()), Timed(Save(id, owner, group, fileMode, targets), now))
      ensures ok <==> if id in old(rows).secrets then MountsAcceptable(old(rows), targets) else targets == []
      ensures ok && id in old(rows).secrets ==>
                SecretPut(old(rows), rows, id, old(rows).secrets[id].name, owner, group, fileMode, targets)
      ensures !ok || id !in old(rows).secrets ==> rows == old(rows)
    {
      if id !in rows.secrets {
        return targets == [];
      }
      var mounts;
      ok, mounts := ReplaceMountRows(id, targets);
      if ok {
        var name := rows.secrets[id].name;
        rows := rows.(secrets := rows.secrets[id := Secret(name, owner, group, fileMode)], mounts := mounts);
        TouchSecret(id, now);
      }
    }

    method TouchSecret(id: int, now: int)
      modifies `secretStamps
      ensures Abs() == Touched(old(Abs()), id, now)
    {
      if id in secretStamps {
        secretStamps := secretStamps[id := Stamps(now, secretStamps[id].applied)];
      }
    }

    /** INSERT OR IGNORE and then the bump: a pair that is there already is no change; one
        that breaks a foreign key is an error. */
    method AddSecretMount(id: int, workload: int, touched: bool, now: int) returns (ok: bool)
      requires Closed(Abs())
      modifies this
      ensures Abs() == Step(old(Abs()), Timed(Attach(id, workload, touched), now))
      ensures (id, workload) in old(rows).mounts ==> ok && Abs() == old(Abs())
      ensures id in old(rows).secrets && workload in old(rows).workloads ==> MountSet(old(rows), rows, id, workload, true)
    {
      if (id, workload) in rows.mounts {
        return true;
      }
      if id !in rows.secrets || workload !in rows.workloads {
        return false;
      }
      rows := rows.(mounts := rows.mounts + {(id, workload)});
      if touched {
        TouchSecret(id, now);
      }
      ok := touched;
    }

    method RemoveSecretMount(id: int, workload: int, touched: bool, now: int) returns (ok: bool)
      requires Closed(Abs())
      modifies this
      ensures Abs() == Step(old(Abs()), Timed(Detach(id, workload, touched), now))
      ensures (id, workload) !in old(rows).mounts ==> ok && Abs() == old(Abs())
      ensures MountSet(old(rows), rows, id, workload, false)
    {
      if (id, workload) !in rows.mounts {
        return true;
      }
      rows := rows.(mounts := rows.mounts - {(id, workload)});
      if touched {
        TouchSecret(id, now);
      }
      ok := touched;
    }

    method MarkSecretApplied(id: int, now: int)
      modifies `secretStamps
      ensures Abs() == Step(old(Abs()), Timed(Mark(id), now))
    {
      if id in secretStamps {
        secretStamps := secretStamps[id := Stamps(secretStamps[id].updated, Some(now))];
      }
    }

    method CreateFlakeInput(id: int, input: FlakeInput, now: int) returns (ok: bool)
      requires Closed(Abs()) && id !in rows.inputs
      modifies this
      ensures Abs() == Step(old(Abs()), Timed(CreateInput(id, input), now))
      ensures ok <==> id in rows.inputs
      ensures if ok then InputPut(old(rows), rows, id, input.name, input.url, input.followsNixpkgs) else rows == old(rows)
    {
      if InputNameTaken(rows, input.name) {
        return false;
      }
      rows := rows.(inputs := rows.inputs[id := input]);
      inputStamps := inputStamps[id := Stamps(now, None)];
      ok := true;
    }

    method UpdateFlakeInput(id: int, url: string, follows: bool, now: int)
      requires Closed(Abs())
      modifies this
      ensures Abs() == Step(old(Abs()), Timed(SaveInput(id, url, follows), now))
      ensures if id in old(rows).inputs then InputPut(old(rows), rows, id, old(rows).inputs[id].name, url, follows)
              else rows == old(rows)
    {
      if id in rows.inputs {
        rows := rows.(inputs := rows.inputs[id := FlakeInput(rows.inputs[id].name, url, follows)]);
        inputStamps := inputStamps[id := Stamps(now, inputStamps[id].applied)];
      }
    }

    method MarkFlakeInputApplied(id: int, now: int)
      modifies `inputStamps
      ensures Abs() == Step(old(Abs()), Timed(MarkInput(id), now))
    {
      if id in inputStamps {
        inputStamps := inputStamps[id := Stamps(inputStamps[id].updated, Some(now))];
      }
    }
  }
}
