/** A batch that no root can be right for: all nodes of its tree share one digest. */
module CollidingBatch {
  import opened Prelude
  import opened Uuid
  import opened TreeNode
  import opened RadixTree
  import opened ContentStore
  import opened TreeStore
  import opened Changes
  import TreeApply
  import TreeClash
  import TreeParts
  import TreeUpdate

  /** The encoding of the empty root. */
  ghost function EmptyPayload(): Bytes {
    Encode(Node([], None, seq(BRANCHES, _ => [])))
  }

  lemma EmptyPayloadIs()
    ensures EmptyPayload() == Encode(EMPTY_NODE)
  {
    assert EMPTY_NODE == Node([], None, seq(BRANCHES, _ => []));
  }

  function Repeated(b: Byte): Digest { seq(HASH_BYTES, _ => b) }

  /** A hash under which all tree nodes but the empty root collide. */
  ghost function Coarse(kind: Kind, payload: Bytes): Digest {
    if kind == Blob then Repeated(0)
    else if payload == EmptyPayload() then Repeated(1)
    else Repeated(2)
  }

  /** One blob and the empty root. */
  ghost function CoarseRows(): Rows {
    map[Repeated(0) := Row(Blob, []), Repeated(1) := Row(TreeKind, EmptyPayload())]
  }

  /** Two keys that both get the blob. */
  function TwoPuts(): (changes: seq<Change>)
    ensures |changes| == 2
  {
    [Change(seq(16, _ => 0), Some(Repeated(0))), Change(seq(16, _ => 1), Some(Repeated(0)))]
  }

  lemma RepeatedDiffers(a: Byte, b: Byte)
    requires a != b
    ensures Repeated(a) != Repeated(b)
  {
    assert Repeated(a)[0] != Repeated(b)[0];
  }

  /** Under the coarse hash every valid node but the empty root has the common digest. */
  lemma CommonDigest(t: Tree, depth: nat)
    requires Valid(t, depth) && (depth > 0 || Count(Occupied(t.kids)) > 0)
    ensures Root(Coarse, t) == Repeated(2)
  {
    hide Encode, EmptyPayload;
    EmptyPayloadIs();
    NodeOfShape(Coarse, t, depth);
    CountNone(Present(NO_CHILDREN));
    if Encode(NodeOf(Coarse, t)) == Encode(EMPTY_NODE) {
      EncodeInjective(NodeOf(Coarse, t), EMPTY_NODE, depth, 0);
    }
  }

  /** A stored trie with two keys would hold two different nodes under the common digest. */
  lemma NoTwoKeys(rows: Rows, t: Tree, p: Key, q: Key)
    requires Valid(t, 0) && Held(Coarse, rows, t) && p != q
    ensures Find(t, 0, p).None? || Find(t, 0, q).None?
  {
    hide Encode;
    if |t.prefix| < KEY_NIBBLES {
      if Count(Occupied(t.kids)) == 0 {
        TreeUpdate.ChildlessIsEmpty(t, 0);
      } else {
        var e, _ := CountWitness(Occupied(t.kids));
        assert Valid(t.kids[e], |t.prefix| + 1);
        CommonDigest(t, 0);
        CommonDigest(t.kids[e], |t.prefix| + 1);
        TreeClash.SameRoots(Coarse, rows, t, t.kids[e], 0, |t.prefix| + 1);
        assert false;
      }
    }
  }

  /** The blob and the empty root are stored. */
  lemma StartsEmpty()
    ensures Fetch(Coarse, CoarseRows(), Blob, Repeated(0)) == Some([])
    ensures DenotesMap(Coarse, CoarseRows(), Repeated(1), map[])
  {
    hide Encode, EmptyPayload;
    EmptyPayloadIs();
    RepeatedDiffers(0, 1);
    EmptyTreeValid();
    TreeApply.EmptyNodeOf(Coarse);
    assert Root(Coarse, EmptyTree()) == Repeated(1);
    assert Held(Coarse, CoarseRows(), EmptyTree());
    LoadHeld(Coarse, CoarseRows(), EmptyTree(), 0);
  }

  /**
   The batch is in order and starts from a sound root, but its nodes collide.
   Whatever is stored, no digest is a root of the written map, so whatever the
   batch returns is wrong or a refusal.
   */
  lemma BatchGoesWrong(rows: Rows, root: Bytes)
    ensures DistinctKeys(TwoPuts()) && TreeApply.BlobsKnown(Coarse, CoarseRows(), TwoPuts())
    ensures DenotesMap(Coarse, CoarseRows(), Repeated(1), map[])
    ensures !DenotesMap(Coarse, rows, root, WriteAll(map[], TwoPuts()))
  {
    hide Encode, Find, Load, Held, Valid, CoarseRows, Coarse;
    StartsEmpty();
    var changes, p, q := TwoPuts(), Unpack(TwoPuts()[0].key), Unpack(TwoPuts()[1].key);
    assert changes[0].key[0] != changes[1].key[0];
    UnpackDiffers(changes[0].key, changes[1].key);
    WrittenTwo(p, q);
    if DenotesMap(Coarse, rows, root, WriteAll(map[], changes)) {
      var t := Load(Coarse, rows, root, 0).value;
      LoadValid(Coarse, rows, root, 0);
      LoadedHeld(Coarse, rows, root, 0);
      NoTwoKeys(rows, t, p, q);
      TreeUpdate.DenotesAt(t, WriteAll(map[], changes), p);
      TreeUpdate.DenotesAt(t, WriteAll(map[], changes), q);
    }
  }

  /** No node but the empty root conflicts with what is stored. */
  lemma {:induction false} NothingConflicts(t: Tree, depth: nat)
    requires ValidEdge(t, depth) && (t.Sub? && depth == 0 ==> Count(Occupied(t.kids)) > 0)
    ensures !Conflicts(Coarse, CoarseRows(), t)
    decreases t
  {
    hide Encode, Valid, Coarse;
    if t.Sub? {
      CommonDigest(t, depth);
      NodeOfShape(Coarse, t, depth);
      NotStored();
      TreeApply.ShapeOf(Coarse, t, depth);
      forall e | 0 <= e < |t.kids|
        ensures !Conflicts(Coarse, CoarseRows(), t.kids[e])
      {
        NothingConflicts(t.kids[e], depth + |t.prefix| + 1);
      }
    }
  }

  lemma NotStored()
    ensures Repeated(2) !in CoarseRows()
  {
    RepeatedDiffers(2, 0);
    RepeatedDiffers(2, 1);
  }

  lemma TwoKeysFork(t: Tree, p: Key, q: Key)
    requires Valid(t, 0) && p != q && Find(t, 0, p).Some? && Find(t, 0, q).Some?
    ensures Count(Occupied(t.kids)) > 0
  {
    if |t.prefix| < KEY_NIBBLES && Count(Occupied(t.kids)) == 0 { TreeUpdate.ChildlessIsEmpty(t, 0); }
  }

  /** The tree of the two keys: nothing in it conflicts with stored rows, and its root has the common digest. */
  lemma TreeOfTwo(t: Tree)
    requires Valid(t, 0) && Denotes(t, WriteAll(map[], TwoPuts()))
    ensures !Conflicts(Coarse, CoarseRows(), t) && Root(Coarse, t) == Repeated(2)
  {
    hide Encode, Find, Valid, CoarseRows, Coarse, Conflicts;
    var changes, p, q := TwoPuts(), Unpack(TwoPuts()[0].key), Unpack(TwoPuts()[1].key);
    assert changes[0].key[0] != changes[1].key[0];
    UnpackDiffers(changes[0].key, changes[1].key);
    WrittenTwo(p, q);
    TreeUpdate.DenotesAt(t, WriteAll(map[], changes), p);
    TreeUpdate.DenotesAt(t, WriteAll(map[], changes), q);
    TwoKeysFork(t, p, q);
    CommonDigest(t, 0);
    NothingConflicts(t, 0);
  }

  /** The batch answers all the same: staging has not noticed that its nodes collide. */
  method AnswersWrong(db: Store) returns (r: Option<Bytes>)
    requires db.hash == Coarse && db.rows == CoarseRows()
    modifies db
    ensures r == Some(Repeated(2)) && !DenotesMap(db.hash, db.rows, r.value, WriteAll(map[], TwoPuts()))
  {
    hide Encode, Find, Valid, CoarseRows, Coarse, Conflicts, SelfClash, DenotesMap, Denotes, WriteAll, TwoPuts, Root,
      TreeClash.Clashes, TreeParts.BatchClean, TreeApply.BlobsKnown;
    BatchGoesWrong(db.rows, Repeated(1));
    r := TreeApply.Apply(db, Repeated(1), TwoPuts());
    ghost var will := WriteAll(map[], TwoPuts());
    assert will != map[] by { TwoWritten(); }
    assert TreeApply.FromEmpty(db.hash, CoarseRows(), db.rows, r, will);
    ghost var t: Tree :| Valid(t, 0) && Denotes(t, will)
                         && (!Conflicts(db.hash, CoarseRows(), t) ==> r == Some(Root(db.hash, t)));
    TreeOfTwo(t);
    BatchGoesWrong(db.rows, r.value);
  }

  lemma TwoWritten()
    ensures WriteAll(map[], TwoPuts()) != map[]
  {
    WrittenTwo(Unpack(TwoPuts()[0].key), Unpack(TwoPuts()[1].key));
  }

  lemma UnpackDiffers(a: Uuid, b: Uuid)
    requires a != b
    ensures Unpack(a) != Unpack(b)
  {
    if Unpack(a) == Unpack(b) { UnpackInjective(a, b); }
  }

  lemma WrittenTwo(p: Key, q: Key)
    requires p == Unpack(TwoPuts()[0].key) && q == Unpack(TwoPuts()[1].key)
    ensures p in WriteAll(map[], TwoPuts()) && q in WriteAll(map[], TwoPuts())
  {
    hide Unpack;
    var changes := TwoPuts();
    assert changes[..1] == [changes[0]] && changes[..1][..0] == [];
    assert WriteAll(map[], changes[..1]) == Write(map[], p, changes[0].blob);
  }
}
