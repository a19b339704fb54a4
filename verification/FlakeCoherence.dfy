/** index.nix and flake.nix agree on secrets after startApply has written both, and only
    a regeneration of the index alone can part them. */
module FlakeCoherence {
  import opened Names
  import opened Rows
  import opened Machine

  /** The index declares secrets exactly when the flake imports agenix. */
  ghost predicate Coherent(d: Disk) {
    d.index.secrets != map[] <==> d.flake.agenix
  }

  /** The index in force says what the secret rows say. */
  ghost predicate IndexCurrent(s: State) {
    s.disk.index.secrets.Keys == SecretNames(s.rows)
  }

  /** Between the handler's index and its start of the job. */
  ghost predicate ApplyUnderWay(s: State) {
    && (s.pc.ApplyFlake? || s.pc.ApplySnapshot? || s.pc.ApplyPrune? ==> IndexCurrent(s))
    && (s.pc.ApplySnapshot? || s.pc.ApplyPrune? ==> Coherent(s.disk))
  }

  lemma NamesEmptyExactly(r: Rows)
    ensures SecretNames(r) == {} <==> r.secrets == map[]
  {
    if r.secrets != map[] {
      assert (forall id :: id !in r.secrets) ==> r.secrets == map[];
      var id :| id in r.secrets;
      assert r.secrets[id].name in SecretNames(r);
    }
  }

  lemma StepKeepsApplyUnderWay(s: State, l: Label)
    requires ApplyUnderWay(s)
    ensures ApplyUnderWay(Next(s, l))
  {
    hide Snapshot, MountsAcceptable, ReplaceMounts, Captured;
    NamesEmptyExactly(s.rows);
    match l {
      case Begin(req) => BeginUnderWay(s, req);
      case Commit(id) =>
      case _ =>
    }
  }

  lemma BeginUnderWay(s: State, req: Request)
    requires ApplyUnderWay(s)
    ensures ApplyUnderWay(BeginStep(s, req))
  {
  }

  /** Whenever a run is at a startApply that has written both files (it is taking its
      snapshot, pruning or starting its job), they agree. */
  lemma {:induction false} CoherentAfterStartApply(dryRun: bool, ls: seq<Label>)
    ensures ApplyUnderWay(Run(Init(dryRun), ls))
  {
    if ls != [] {
      CoherentAfterStartApply(dryRun, ls[..|ls| - 1]);
      StepKeepsApplyUnderWay(Run(Init(dryRun), ls[..|ls| - 1]), ls[|ls| - 1]);
    }
  }

  /** Agreement, once there, is lost only where the index is regenerated without the
      flake: at the first write of an apply, or in a destroy handler. */
  lemma CoherenceLostOnlyByIndexAlone(s: State, l: Label)
    requires Coherent(s.disk) && !Coherent(Next(s, l).disk)
    requires ApplyUnderWay(s)
    ensures (l.Begin? && l.req.Apply?) || (l.Continue? && s.pc.DestroyIndex?)
  {
    NamesEmptyExactly(s.rows);
    match l {
      case Begin(req) =>
        if !req.Apply? {
          BeginWritesIndexOnlyInApply(s, req);
        }
      case _ =>
    }
  }

  lemma BeginWritesIndexOnlyInApply(s: State, req: Request)
    requires !req.Apply?
    ensures var t := BeginStep(s, req); t.disk.index == s.disk.index && t.disk.flake == s.disk.flake
  {
  }

  /** A destroy handler leaves the files in agreement exactly when the flake last written
      imports agenix just when secrets exist now. */
  lemma DestroyCoherentExactly(s: State, id: int, rev: int)
    requires s.pc.DestroyIndex? && EnabledHaveRevisions(s.rows)
    ensures Coherent(Next(s, Continue(id, rev)).disk) <==> (s.disk.flake.agenix <==> s.rows.secrets != map[])
  {
    NamesEmptyExactly(s.rows);
    assert Next(s, Continue(id, rev)).disk.index.secrets.Keys == SecretNames(s.rows);
  }

  lemma FirstSecretAdded(s: State, secret: Secret, ciphertext: string, sid: int)
    requires s.pc == Idle && s.rows.secrets == map[] && ValidName(secret.name)
    ensures var t := Next(Next(s, Begin(AddSecret(secret, ciphertext, []))), Continue(sid, 0));
            && t.pc == Idle && t.rows.secrets == map[sid := secret] && t.disk.flake == s.disk.flake
            && t.rows.workloads == s.rows.workloads && t.rows.revisions == s.rows.revisions
  {
    var a := Next(s, Begin(AddSecret(secret, ciphertext, [])));
    assert a.pc == AddSecretRow(secret, []) && a.rows == s.rows;
  }

  lemma DisablingKeepsRevisions(r: Rows, id: int)
    requires EnabledHaveRevisions(r)
    ensures EnabledHaveRevisions(SetEnabled(r, id, false))
  {
    var t := SetEnabled(r, id, false);
    forall k | k in t.workloads && t.workloads[k].enabled ensures RevisionsOf(t, k) != {} {
      assert RevisionsOf(t, k) == RevisionsOf(r, k);
    }
  }

  lemma SameTablesSameRevisions(r: Rows, t: Rows)
    requires EnabledHaveRevisions(r) && t.workloads == r.workloads && t.revisions == r.revisions
    ensures EnabledHaveRevisions(t)
  {
    forall k ensures RevisionsOf(t, k) == RevisionsOf(r, k) {
    }
  }

  /** Such a disagreement happens: a first secret and then a destroy. */
  lemma SecretThenDestroyDisagrees(s: State, secret: Secret, ciphertext: string, sid: int, id: int)
    requires s.pc == Idle && s.rows.secrets == map[] && !s.disk.flake.agenix && EnabledHaveRevisions(s.rows)
    requires ValidName(secret.name) && id in s.rows.workloads
    ensures var t := Run(s, [Begin(AddSecret(secret, ciphertext, [])), Continue(sid, 0), Begin(Destroy(id)), Continue(0, 0)]);
            !Coherent(t.disk)
  {
    RunFour(s, Begin(AddSecret(secret, ciphertext, [])), Continue(sid, 0), Begin(Destroy(id)), Continue(0, 0));
    FirstSecretAdded(s, secret, ciphertext, sid);
    var added := Next(Next(s, Begin(AddSecret(secret, ciphertext, []))), Continue(sid, 0));
    SameTablesSameRevisions(s.rows, added.rows);
    DisablingKeepsRevisions(added.rows, id);
    var destroying := BeginDestroy(added, id);
    assert destroying.pc.DestroyIndex? && sid in destroying.rows.secrets && destroying.disk == added.disk;
    DestroyCoherentExactly(destroying, 0, 0);
  }
}
