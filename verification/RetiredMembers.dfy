/** Members that a save dropped: as long as networks are only saved, none of them comes back. */
module RetiredMembers {
  import opened Prelude
  import opened Uuid
  import opened ModelRecord
  import opened Journal
  import opened UndoHistory
  import opened WorkingObjects
  import opened NetworkRecords
  import opened NetworkSave

  /** A tombstone that no readable root lists, and that is not a root itself. */
  ghost predicate Retired<Meta, Entity>(c: NetworkRecords.Codec<Meta, Entity>, rows: Rows, u: Uuid) {
    && u in rows && rows[u].content.None? && rows[u].kind != ROOT_KIND
    && forall m | IndexAt(c, rows, m).Some? :: u !in Referenced(IndexAt(c, rows, m).value.lists)
  }

  /** What a save that goes through does to the rows and to the membership table. */
  ghost predicate SaveStep<Meta,
      Entity>(c: NetworkRecords.Codec<Meta, Entity>, net: Network<Meta, Entity>, rows: Rows, owner: Owners,
                                         after: Rows, owner': Owners) {
    && |net.lists| == |c.kinds| && Buildable(c, net) && FormerMembers(c, rows, net.id).Some?
    && Compatible(rows, owner, net.id, FormerMembers(c, rows, net.id).value, Records(c, net))
    && Stored(rows, after, FormerMembers(c, rows, net.id).value, Records(c, net))
    && rows.Keys <= after.Keys && Handed(owner, owner', net.id, Referenced(IndexOf(c, net).lists))
  }

  /** Saves one after the other, of any networks. */
  ghost predicate SaveRun<Meta, Entity>(c: NetworkRecords.Codec<Meta, Entity>, nets: seq<Network<Meta, Entity>>,
                                        states: seq<(Rows, Owners)>) {
    && |states| == |nets| + 1
    && forall i | 0 <= i < |nets| :: SaveStep(c, nets[i], states[i].0, states[i].1, states[i + 1].0, states[i + 1].1)
  }

  lemma StepRegistered<Meta(!new),
      Entity(!new)>(c: NetworkRecords.Codec<Meta, Entity>, net: Network<Meta, Entity>, rows: Rows,
                                                 owner: Owners, after: Rows, owner': Owners)
    requires Lawful(c) && Registered(c, rows, owner) && SaveStep(c, net, rows, owner, after, owner')
    ensures Registered(c, after, owner')
  {
    hide Lawful, Registered, Buildable, Compatible, Stored, Handed, IndexOf, Referenced, Records, FormerMembers;
    StillRegistered(c, net, rows, after, owner, owner', FormerMembers(c, rows, net.id).value);
  }

  /** A former member is nobody else's, so a save that leaves it out retires it. */
  lemma DroppedRetires<Meta(!new),
      Entity(!new)>(c: NetworkRecords.Codec<Meta, Entity>, net: Network<Meta, Entity>, rows: Rows,
                                                 owner: Owners, after: Rows, owner': Owners, u: Uuid)
    requires Lawful(c) && Registered(c, rows, owner) && SaveStep(c, net, rows, owner, after, owner')
    requires u in FormerMembers(c, rows, net.id).value && u !in IdsOf(Records(c, net))
    ensures Retired(c, after, u)
  {
    hide Lawful, Buildable, Compatible, Stored, IndexAt, Referenced, IndexOf, Records, OwnersLive, OwnedListed,
      Handed;
    assert MembersOwned(c, rows, owner, net.id);
    DroppedRow(rows, after, FormerMembers(c, rows, net.id).value, Records(c, net), u);
    forall m | IndexAt(c, after, m).Some?
      ensures u !in Referenced(IndexAt(c, after, m).value.lists)
    {
      NotListed(c, net, rows, owner, after, owner', u, m);
    }
  }

  lemma DroppedRow(rows: Rows, after: Rows, had: set<Uuid>, records: seq<Item>, u: Uuid)
    requires Stored(rows, after, had, records) && u in had - IdsOf(records) && u in rows
    ensures u in after && after[u].content.None? && after[u].kind == rows[u].kind
  {}

  /** After a save, an object outside its records is listed only by a root that listed it before, and then not by the
      saved one. */
  lemma NotListed<Meta(!new), Entity(!new)>(c: NetworkRecords.Codec<Meta, Entity>, net: Network<Meta, Entity>,
                                            rows: Rows,
                                            owner: Owners, after: Rows, owner': Owners, u: Uuid, m: Uuid)
    requires Lawful(c) && Registered(c, rows, owner) && SaveStep(c, net, rows, owner, after, owner')
               && u !in IdsOf(Records(c, net))
    requires m != net.id && IndexAt(c, rows, m).Some? && u in Referenced(IndexAt(c, rows, m).value.lists) ==>
               Get(owner, u) == Some(net.id)
    ensures IndexAt(c, after, m).Some? ==> u !in Referenced(IndexAt(c, after, m).value.lists)
  {
    hide Lawful, Buildable, Compatible, Stored, IndexAt, Referenced, IndexOf, Records, OwnersLive, OwnedListed,
      Handed, NetworkAt;
    var had := FormerMembers(c, rows, net.id).value;
    if m == net.id {
      StoredReadsBack(c, net, rows, after, had);
      MembersAre(c, net);
    } else {
      RecordRoots(c, net);
      OthersStay(c, rows, after, owner, net.id, had, Records(c, net), m);
      assert MembersOwned(c, rows, owner, m);
    }
  }

  /** A save that goes through does not list a retired object, and leaves it retired. */
  lemma RetiredStays<Meta(!new),
      Entity(!new)>(c: NetworkRecords.Codec<Meta, Entity>, net: Network<Meta, Entity>, rows: Rows,
                                               owner: Owners, after: Rows, owner': Owners, u: Uuid)
    requires Lawful(c) && Registered(c, rows, owner) && SaveStep(c, net, rows, owner, after, owner')
               && Retired(c, rows, u)
    ensures u !in IdsOf(Records(c, net)) && Retired(c, after, u)
  {
    hide Lawful, Buildable, IndexAt, Referenced, IndexOf, Records, OwnersLive, OwnedListed, MembersOwned, Handed,
      Droppable;
    var had, records := FormerMembers(c, rows, net.id).value, Records(c, net);
    assert u !in had;
    RecordRoots(c, net);
    if u in IdsOf(records) {
      var i :| 0 <= i < |records| && records[i].id == u;
      assert Takes(rows, net.id, had, records[i]);
      RootRecord(c, net, i);
    }
    assert Get(after, u) == Get(rows, u);
    forall m | IndexAt(c, after, m).Some?
      ensures u !in Referenced(IndexAt(c, after, m).value.lists)
    {
      NotListed(c, net, rows, owner, after, owner', u, m);
    }
  }

  /** The record under the network's own identifier is the root's. */
  lemma RootRecord<Meta(!new), Entity(!new)>(c: NetworkRecords.Codec<Meta, Entity>, net: Network<Meta, Entity>, i: nat)
    requires |net.lists| == |c.kinds| && Buildable(c, net) && i < |Records(c, net)| && Records(c, net)[i].id == net.id
    ensures Records(c, net)[i].kind == ROOT_KIND
  {
    hide AllItems, Writable;
    assert Records(c, net)[0].id == net.id;
  }

  ghost predicate Lists<Meta, Entity>(c: NetworkRecords.Codec<Meta, Entity>, net: Network<Meta, Entity>, u: Uuid) {
    |net.lists| == |c.kinds| && u in IdsOf(Records(c, net))
  }

  ghost predicate Drops<Meta, Entity>(c: NetworkRecords.Codec<Meta, Entity>, net: Network<Meta, Entity>, rows: Rows,
                                      u: Uuid) {
    var had := FormerMembers(c, rows, net.id);
    had.Some? && u in had.value && !Lists(c, net, u)
  }

  /**
   In any run of saves, of this network or of others, an object that one save
   drops is listed by none of the later ones: a later save that lists it is
   refused. (An undo, or an edit of the single object, can revive it.)
   */
  lemma {:induction false} DroppedStaysOut<Meta(!new), Entity(!new)>(c: NetworkRecords.Codec<Meta, Entity>,
                                                                     nets: seq<Network<Meta, Entity>>,
                                                                       states: seq<(Rows, Owners)>,
                                                                     u: Uuid, i: nat)
    requires Lawful(c) && SaveRun(c, nets, states) && Registered(c, states[0].0, states[0].1) && 0 < i < |states|
    requires Drops(c, nets[0], states[0].0, u)
    ensures Registered(c, states[i].0, states[i].1) && Retired(c, states[i].0, u)
    ensures i < |nets| ==> !Lists(c, nets[i], u)
  {
    hide Lawful, Registered, Retired, IdsOf, Records, FormerMembers;
    var j := i - 1;
    assert SaveStep(c, nets[j], states[j].0, states[j].1, states[i].0, states[i].1);
    if i == 1 {
      DroppedRetires(c, nets[0], states[0].0, states[0].1, states[1].0, states[1].1, u);
    } else {
      DroppedStaysOut(c, nets, states, u, j);
      RetiredStays(c, nets[j], states[j].0, states[j].1, states[i].0, states[i].1, u);
    }
    StepRegistered(c, nets[j], states[j].0, states[j].1, states[i].0, states[i].1);
    if i < |nets| {
      assert SaveStep(c, nets[i], states[i].0, states[i].1, states[i + 1].0, states[i + 1].1);
      RetiredStays(c, nets[i], states[i].0, states[i].1, states[i + 1].0, states[i + 1].1, u);
    }
  }
}
