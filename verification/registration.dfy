/** Which instances the client keeps warm, and the background refresh
    tasks (google/cloud/bigtable/client.py, and the owner-counted removal
    of google/cloud/bigtable/_sync_autogen.py). Instances are named by
    their resource path; a refresh task by the index of the channel it
    manages. */
module Registration {

  /** The client's registration state. */
  datatype Client = Client(activeInstances: set<string>, refreshTasks: seq<nat>, poolSize: nat)

  /** `start_background_channel_refresh`: when no task runs yet, start one
      per channel of the pool, in channel order; otherwise do nothing. */
  function StartRefresh(c: Client): (r: Client)
    ensures r.activeInstances == c.activeInstances && r.poolSize == c.poolSize
    ensures |c.refreshTasks| > 0 ==> r == c
    ensures |c.refreshTasks| == 0 ==>
      |r.refreshTasks| == c.poolSize && forall k :: 0 <= k < |r.refreshTasks| ==> r.refreshTasks[k] == k
  {
    if |c.refreshTasks| > 0 then c else c.(refreshTasks := seq(c.poolSize, k => k))
  }

  /** The client after a registration, and the channels pinged at once to
      warm the new instance. */
  datatype Registered = Registered(client: Client, warmed: seq<nat>)

  /** `register_instance`: a new instance is added; if refresh tasks run,
      every existing channel is warmed for it, otherwise the tasks are
      started. An instance already registered changes nothing. */
  function RegisterInstance(c: Client, name: string): (r: Registered)
    ensures r.client.activeInstances == c.activeInstances + {name}
    ensures name in c.activeInstances ==> r == Registered(c, [])
    ensures name !in c.activeInstances && |c.refreshTasks| > 0 ==> |r.warmed| == c.poolSize
    ensures name !in c.activeInstances && |c.refreshTasks| > 0 ==> forall k :: 0 <= k < c.poolSize ==> r.warmed[k] == k
    ensures |c.refreshTasks| == 0 ==> r.warmed == []
    ensures name !in c.activeInstances ==> r.client == StartRefresh(c.(activeInstances := c.activeInstances + {name}))
    ensures |r.client.refreshTasks| > 0 || c.poolSize == 0 || name in c.activeInstances
  {
    if name in c.activeInstances then Registered(c, [])
    else
      var c1 := c.(activeInstances := c.activeInstances + {name});
      if |c.refreshTasks| > 0 then Registered(c1, seq(c.poolSize, k => k))
      else Registered(StartRefresh(c1), [])
  }

  /** The client after a removal, and whether the instance was there. */
  datatype Removed = Removed(client: Client, removed: bool)

  /** `remove_instance_registration`: removes exactly that instance and
      reports whether it was registered. */
  function RemoveInstance(c: Client, name: string): (r: Removed)
    ensures r.removed <==> name in c.activeInstances
    ensures r.client == c.(activeInstances := c.activeInstances - {name})
  {
    Removed(c.(activeInstances := c.activeInstances - {name}), name in c.activeInstances)
  }

  /** Registering twice is registering once, and removing a freshly
      registered instance restores the instance set. */
  lemma RegisterIdempotentAndUndone(c: Client, name: string)
    ensures RegisterInstance(RegisterInstance(c, name).client, name).client == RegisterInstance(c, name).client
    ensures name !in c.activeInstances ==>
      RemoveInstance(RegisterInstance(c, name).client, name).removed
      && RemoveInstance(RegisterInstance(c, name).client, name).client.activeInstances == c.activeInstances
  {
  }

  /** The synchronous client's bookkeeping of which tables (by object id)
      use each instance. Its `_register_instance` is an empty stub, so
      this client never adds an owner itself; the model takes the owner
      map as given. */
  datatype OwnedClient = OwnedClient(activeInstances: set<string>, owners: map<string, set<nat>>)

  /** An instance some table still uses is registered. */
  predicate Synced(c: OwnedClient) {
    forall name :: name in c.owners && c.owners[name] != {} ==> name in c.activeInstances
  }

  datatype OwnerRemoved = OwnerRemoved(client: OwnedClient, removed: bool)

  /** `_remove_instance_registration`: drop the owner from the instance's
      owner set (a missing set or owner is a `KeyError`, answered with
      `False`); when the set becomes empty, unregister the instance, and a
      `KeyError` from that also answers `False`. The owner set is kept in
      the map even when empty. */
  function RemoveOwner(c: OwnedClient, name: string, owner: nat): (r: OwnerRemoved)
    ensures r.removed ==> name in c.owners && owner in c.owners[name]
    ensures !(name in c.owners && owner in c.owners[name]) ==> r == OwnerRemoved(c, false)
    ensures name in c.owners && owner in c.owners[name] ==>
      && r.client.owners == c.owners[name := c.owners[name] - {owner}]
      && r.client.activeInstances == (if c.owners[name] == {owner} then c.activeInstances - {name} else c.activeInstances)
      && (r.removed <==> c.owners[name] != {owner} || name in c.activeInstances)
  {
    if name !in c.owners || owner !in c.owners[name] then OwnerRemoved(c, false)
    else
      var rest := c.owners[name] - {owner};
      var c1 := c.(owners := c.owners[name := rest]);
      if rest != {} then OwnerRemoved(c1, true)
      else if name in c.activeInstances then OwnerRemoved(c1.(activeInstances := c.activeInstances - {name}), true)
      else OwnerRemoved(c1, false)
  }

  /** On a synced client the removal answers `True` exactly for a
      registered owner, unregisters the instance exactly when its last
      owner leaves, and keeps the client synced. */
  lemma RemoveOwnerSynced(c: OwnedClient, name: string, owner: nat)
    requires Synced(c)
    ensures var r := RemoveOwner(c, name, owner);
      Synced(r.client)
      && (r.removed <==> name in c.owners && owner in c.owners[name])
      && (r.client.activeInstances == if r.removed && c.owners[name] == {owner} then c.activeInstances - {name} else c.activeInstances)
  {
    var r := RemoveOwner(c, name, owner);
    if name in c.owners && owner in c.owners[name] {
      assert c.owners[name] != {};
      if c.owners[name] - {owner} == {} {
        assert c.owners[name] == {owner};
      } else {
        assert c.owners[name] != {owner};
      }
    }
  }

  /** The method's documentation promises `False` while other tables
      still use the instance; the code answers `True` and leaves the
      instance registered. */
  lemma RemoveSharedOwnerAnswersTrue(c: OwnedClient, name: string, owner: nat, other: nat)
    requires name in c.activeInstances && name in c.owners
    requires owner in c.owners[name] && other in c.owners[name] && other != owner
    ensures var r := RemoveOwner(c, name, owner);
      r.removed && name in r.client.activeInstances && r.client.owners[name] == c.owners[name] - {owner}
  {
    assert other in c.owners[name] - {owner};
  }
}
