/** The HeraldConfig controller, which bootstraps NetBox and writes the Store. */
module ConfigController {
  import opened NetBox
  import opened Plans
  import opened Interleaving
  import opened Client
  import opened ConfigStore

  /** The managed tag was found, or created, and after that a call for the external-ID custom field succeeded. */
  ghost predicate TagThenField(made: seq<Call>, log: seq<Reply>)
    requires |made| == |log|
  {
    exists i, j ::
      && 0 <= i < j < |made|
      && ((made[i] == ListTags && log[i] == TagListing(true)) || (made[i] == CreateTag && log[i].Done?))
      && made[j] == Consult(CustomField) && log[j].Done?
  }

  lemma {:induction false} TagThenFieldNow(made: seq<Call>, log: seq<Reply>, reply: Reply)
    requires TagSeen(made, log) && reply.Done?
    ensures TagThenField(made + [Consult(CustomField)], log + [reply])
  {
    var calls, replies, i := made + [Consult(CustomField)], log + [reply], |made| - 1;
    assert calls[i] == made[i] && replies[i] == log[i];
    assert calls[i + 1] == Consult(CustomField) && replies[i + 1].Done?;
  }

  /** The HeraldConfig reconcile. connects says whether the configuration loads, a client can be built
      and the version check passes. The Store gets the new session exactly when the tag and the custom
      field have been ensured, is cleared on every failure, and keeps its content only when the
      HeraldConfig could not be read. */
  method ReconcileConfig(store: Store, s: NetBoxServer, cr: Fetched<Session>, connects: bool) returns (ok: bool)
    modifies s, store
    ensures cr.Unreadable? ==>
            !ok && store.spec == old(store.spec) && store.client == old(store.client) && s.db == old(s.db)
    ensures cr.Missing? ==> ok && store.Current() == None && s.db == old(s.db)
    ensures cr.Present? && !connects ==> !ok && store.Current() == None && s.db == old(s.db)
    ensures cr.Present? && connects ==>
              && CarriedOut(old(s.db), ConnOf(cr.value), BOOTSTRAP, s.log, s.db, ok)
              && store.Current() == (if ok then Some(cr.value) else None)
              && |s.made| == |s.log| && (ok ==> TagThenField(s.made, s.log))
  {
    match cr {
      case Unreadable =>
        ok := false;
      case Missing =>
        store.Set(None, None);
        ok := true;
      case Present(session) =>
        if !connects {
          store.Set(None, None);
          return false;
        }
        var c := ConnOf(session);
        s.Bind(c, BOOTSTRAP);
        var check := Check(CustomField);
        assert BOOTSTRAP == [EnsureTag] + ([check] + []);
        ok := EnsureManagedTag(s, c, [check] + []);
        ghost var made, log := s.made, s.log;
        if ok {
          ok := Consulting(s, c, CustomField, []);
          if ok { TagThenFieldNow(made, log, s.log[|log|]); }
        }
        if ok {
          store.Set(Some(session.spec), Some(session.site));
        } else {
          store.Set(None, None);
        }
    }
  }
}
