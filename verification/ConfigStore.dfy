/** The Store that the HeraldConfig controller writes and all others read. */
module ConfigStore {
  import opened NetBox
  import opened Plans
  import opened Interleaving

  /** The last published spec and the client built for it, which is known by the NetBox instance
      it talks to. */
  class Store {
    var spec: Option<Spec>
    var client: Option<nat>

    /** What a resource reconcile can work with: both, or nothing. */
    function Current(): Option<Session>
      reads this
    {
      if spec.Some? && client.Some? then Some(Session(client.value, spec.value)) else None
    }

    constructor ()
      ensures Current() == None
    {
      spec, client := None, None;
    }

    method Set(spec: Option<Spec>, client: Option<nat>)
      modifies this
      ensures this.spec == spec && this.client == client
    {
      this.spec := spec;
      this.client := client;
    }

    method Get() returns (spec: Option<Spec>, client: Option<nat>)
      ensures spec == this.spec && client == this.client
    {
      spec := this.spec;
      client := this.client;
    }
  }
}
