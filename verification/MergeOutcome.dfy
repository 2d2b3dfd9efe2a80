/** How a merge with resolutions must end, object by object, and what that means for both sides. */
module MergeOutcome {
  import opened Prelude
  import opened Uuid
  import opened FieldMerge
  import opened ThreeWayMerge
  import opened MergeLaws
  import opened MergeCommit
  import M = ModelRecord

  /** The merged payload where every disputed field is decided exactly once, by naming a side. */
  ghost predicate Picked(codec: Codec, u: Uuid, base: Showing, left: Showing, right: Showing,
                         fields: seq<FieldResolution>,
                         payload: Bytes) {
    && (forall i, j | 0 <= i < j < |fields| :: fields[i].name != fields[j].name)
    && (forall i | 0 <= i < |fields| :: fields[i].name != [])
    && (forall name :: DisputedName(codec, u, base, left, right, name) <==>
                       exists i :: 0 <= i < |fields| && fields[i].name == name)
    && exists picks: map<Name, bool> ::
         && (forall i | 0 <= i < |fields| :: fields[i].name in picks && picks[fields[i].name]
                                               == fields[i].side.RightSide?)
         && United(codec, u, base, left, right, picks, payload)
  }

  /**
   The end of one object: the change of the only side that made one, the common
   change, the field merge, or what the resolution of the conflict says; only
   conflicts are resolved.
   */
  ghost predicate Ends(codec: Codec, u: Uuid, base: Showing, left: Showing, right: Showing, res: Option<Resolution>,
                       out: Showing) {
    if base == left then res.None? && out == right
    else if base == right || left == right then res.None? && out == left
    else if res.None? then
      left.Some? && out.Some? && out.value.0 == left.value.0
      && United(codec, u, base, left, right, map[], out.value.1)
    else
      && (forall payload :: !United(codec, u, base, left, right, map[], payload))
      && if res.value.fields == [] then out == if res.value.side.RightSide? then right else left
         else left.Some? && out.Some? && out.value.0 == left.value.0
              && Picked(codec, u, base, left, right, res.value.fields, out.value.1)
  }

  /** The resolution of an object, or that it has none. */
  predicate ResolvedBy(resolutions: seq<Resolution>, u: Uuid, res: Option<Resolution>) {
    if res.Some? then res.value in resolutions && res.value.id == u
    else forall i | 0 <= i < |resolutions| :: resolutions[i].id != u
  }

  /** A row that shows what it showed is the same row; otherwise it keeps its kind and gets the next version. */
  predicate RowMoves(before: M.Rows, after: M.Rows, u: Uuid) {
    if ShownIn(after, u) == ShownIn(before, u) then Get(after, u) == Get(before, u)
    else
      && u in after && after[u].version == (if u in before then before[u].version + 1 else 1)
      && (u in before ==> after[u].kind == before[u].kind)
  }

  ghost predicate ObjectEnds(codec: Codec, b: M.Rows, l: M.Rows, r: M.Rows, resolutions: seq<Resolution>,
                             after: M.Rows, u: Uuid) {
    exists res :: ResolvedBy(resolutions, u, res)
      && Ends(codec, u, ShownIn(b, u), ShownIn(l, u), ShownIn(r, u), res, ShownIn(after, u))
  }

  /** Rows that a merge of `r` into `l` on the base `b` may leave. */
  ghost predicate MergesTo(codec: Codec, b: M.Rows, l: M.Rows, r: M.Rows, resolutions: seq<Resolution>,
                           after: M.Rows) {
    forall u: Uuid :: ObjectEnds(codec, b, l, r, resolutions, after, u) && RowMoves(l, after, u)
  }

  // --------------------------------------------------------------------- the laws

  /**
   No change is lost. A change of one side only is in the result, and so is a
   common change; where the left side already shows it, the row stays as it is. A
   resolution of the whole object gives the object of its side.
   */
  lemma NothingLost(codec: Codec, b: M.Rows, l: M.Rows, r: M.Rows, resolutions: seq<Resolution>, after: M.Rows,
                    u: Uuid)
    requires MergesTo(codec, b, l, r, resolutions, after)
    requires forall i, j | 0 <= i < j < |resolutions| :: resolutions[i].id != resolutions[j].id
    ensures ShownIn(b, u) == ShownIn(l, u) ==> ShownIn(after, u) == ShownIn(r, u)
    ensures ShownIn(b, u) == ShownIn(r, u) ==> Get(after, u) == Get(l, u)
    ensures ShownIn(l, u) == ShownIn(r, u) ==> Get(after, u) == Get(l, u)
    ensures forall i | 0 <= i < |resolutions| && resolutions[i].id == u && resolutions[i].fields == [] ::
              ShownIn(after, u) == ShownIn(if resolutions[i].side.RightSide? then r else l, u)
    ensures forall i | 0 <= i < |resolutions| && resolutions[i].id == u ::
              ShownIn(b, u) != ShownIn(l, u) && ShownIn(b, u) != ShownIn(r, u) && ShownIn(l, u) != ShownIn(r, u)
  {
    hide United, DisputedName, ShownIn;
    assert ObjectEnds(codec, b, l, r, resolutions, after, u) && RowMoves(l, after, u);
    var res :| ResolvedBy(resolutions, u, res)
      && Ends(codec, u, ShownIn(b, u), ShownIn(l, u), ShownIn(r, u), res, ShownIn(after, u));
    forall i | 0 <= i < |resolutions| && resolutions[i].id == u
      ensures res == Some(resolutions[i])
    {
      var j :| 0 <= j < |resolutions| && resolutions[j] == res.value;
      assert i == j || i < j || j < i;
    }
  }

  /**
   Field choices: each disputed field has the value of the side chosen for it, and
   every other field the only change made to it, a common one, or the appended
   tags of both sides.
   */
  lemma ChoicesHeld(codec: Codec, b: M.Rows, l: M.Rows, r: M.Rows, resolutions: seq<Resolution>, after: M.Rows,
                    k: nat)
    returns (s: Schema, base: Entity, left: Entity, right: Entity, merged: Entity)
    requires MergesTo(codec, b, l, r, resolutions, after)
    requires forall i, j | 0 <= i < j < |resolutions| :: resolutions[i].id != resolutions[j].id
    requires k < |resolutions| && resolutions[k].fields != []
    ensures var u, fields := resolutions[k].id, resolutions[k].fields;
      && u in b && u in l && u in r && u in after && b[u].kind == l[u].kind == r[u].kind == after[u].kind
      && codec(l[u].kind) == Some(s)
      && b[u].content.Some? && l[u].content.Some? && r[u].content.Some? && after[u].content.Some?
      && s.read(b[u].content.value) == Some(base) && s.read(l[u].content.value) == Some(left)
      && s.read(r[u].content.value) == Some(right) && after[u].content.value == s.write(merged)
      && (s.read(s.write(merged)) == Some(merged) ==> s.read(after[u].content.value) == Some(merged))
      && |s.names| == |base.fields| == |left.fields| == |right.fields| == |merged.fields|
      && forall i | 0 <= i < |s.names| ::
           var (eb, el, er) := (s.field(base.fields[i]), s.field(left.fields[i]), s.field(right.fields[i]));
           var v := merged.fields[i];
           && (el == eb ==> s.field(v) == er) && (er == eb ==> s.field(v) == el) && (el == er ==> s.field(v) == el)
           && (el != eb && er != eb && el != er ==>
                 || (s.names[i] == TAGS && base.fields[i].Tags? && left.fields[i].Tags? && right.fields[i].Tags?
                     && v.Tags? && multiset(v.tags) + multiset(base.fields[i].tags)
                                   == multiset(left.fields[i].tags) + multiset(right.fields[i].tags))
                 || exists n :: 0 <= n < |fields| && fields[n].name == s.names[i]
                                && v == if fields[n].side.RightSide? then right.fields[i] else left.fields[i])
  {
    hide Unites, ShownIn;
    var u, fields := resolutions[k].id, resolutions[k].fields;
    var sb, sl, sr, out := ShownIn(b, u), ShownIn(l, u), ShownIn(r, u), ShownIn(after, u);
    assert ObjectEnds(codec, b, l, r, resolutions, after, u) && RowMoves(l, after, u);
    var res :| ResolvedBy(resolutions, u, res) && Ends(codec, u, sb, sl, sr, res, out);
    assert res == Some(resolutions[k]) by {
      var j :| 0 <= j < |resolutions| && resolutions[j] == res.value;
      assert k == j || k < j || j < k;
    }
    var picks: map<Name, bool> :|
      && (forall i | 0 <= i < |fields| :: fields[i].name in picks && picks[fields[i].name] == fields[i].side.RightSide?)
      && United(codec, u, sb, sl, sr, picks, out.value.1);
    s, base, left, right :| ReadAll(codec, u, sb, sl, sr, s, base, left, right)
      && Unites(s, base, left, right, picks, out.value.1);
    Parts(codec, b, l, r, after, u, s, base, left, right);
    merged := UnitedEntity(s, base, left, right, picks, out.value.1);
    forall i | 0 <= i < |s.names|
      ensures FieldUnited(s, i, base, left, right, picks, merged.fields[i])
      ensures Disputed(s, i, base, left, right) ==> exists n :: 0 <= n < |fields| && fields[n].name == s.names[i]
    {
      if Disputed(s, i, base, left, right) { assert DisputedName(codec, u, sb, sl, sr, s.names[i]); }
    }
    forall i | 0 <= i < |s.names| {
      PickMean(s, i, base, left, right, picks, merged.fields[i]);
    }
  }

  lemma Parts(codec: Codec, b: M.Rows, l: M.Rows, r: M.Rows, after: M.Rows, u: Uuid, s: Schema, base: Entity,
              left: Entity, right: Entity)
    requires ReadAll(codec, u, ShownIn(b, u), ShownIn(l, u), ShownIn(r, u), s, base, left, right)
    requires ShownIn(after, u).Some?
    ensures u in b && u in l && u in r && b[u].kind == l[u].kind == r[u].kind && codec(l[u].kind) == Some(s)
    ensures u in after && ShownIn(after, u).value.0 == after[u].kind
            && Some(ShownIn(after, u).value.1) == after[u].content && ShownIn(l, u).value.0 == l[u].kind
    ensures b[u].content.Some? && l[u].content.Some? && r[u].content.Some?
    ensures s.read(b[u].content.value) == Some(base) && s.read(l[u].content.value) == Some(left)
            && s.read(r[u].content.value) == Some(right)
    ensures |s.names| == |base.fields| == |left.fields| == |right.fields|
  {}

  lemma UnitedEntity(s: Schema, b: Entity, l: Entity, r: Entity, picks: map<Name, bool>, payload: Bytes)
    returns (e: Entity)
    requires |s.names| == |b.fields| == |l.fields| == |r.fields| && Unites(s, b, l, r, picks, payload)
    ensures payload == s.write(e) && |e.fields| == |s.names|
    ensures forall i | 0 <= i < |s.names| :: FieldUnited(s, i, b, l, r, picks, e.fields[i])
  {
    e :| payload == s.write(e) && payload != [] && e.id == l.id && |e.fields| == |s.names|
      && forall i | 0 <= i < |s.names| :: FieldUnited(s, i, b, l, r, picks, e.fields[i]);
  }

  lemma PickMean(s: Schema, i: nat, b: Entity, l: Entity, r: Entity, picks: map<Name, bool>, v: Value)
    requires i < |s.names| == |b.fields| == |l.fields| == |r.fields| && FieldUnited(s, i, b, l, r, picks, v)
    ensures var (eb, el, er) := (s.field(b.fields[i]), s.field(l.fields[i]), s.field(r.fields[i]));
      && (el == eb ==> s.field(v) == er) && (er == eb ==> s.field(v) == el) && (el == er ==> s.field(v) == el)
      && (el != eb && er != eb && el != er ==>
            if Disputed(s, i, b, l, r)
            then s.names[i] in picks && v == if picks[s.names[i]] then r.fields[i] else l.fields[i]
            else s.names[i] == TAGS && b.fields[i].Tags? && l.fields[i].Tags? && r.fields[i].Tags? && v.Tags?
                 && multiset(v.tags) + multiset(b.fields[i].tags)
                    == multiset(l.fields[i].tags) + multiset(r.fields[i].tags))
  {
    AppendIs(b.fields[i], l.fields[i], r.fields[i]);
    hide AppendsOnly;
    if BothAppend(b.fields[i], l.fields[i], r.fields[i]) {
      TagsConserved(b.fields[i].tags, l.fields[i].tags, r.fields[i].tags);
    }
  }

  // --------------------------------------------------- the code's own way to say it

  /** The choices are what the field resolutions say: true for the right side. */
  lemma {:induction false} ChoicesMean(fields: seq<FieldResolution>)
    requires forall i, j | 0 <= i < j < |fields| :: fields[i].name != fields[j].name
    ensures forall i | 0 <= i < |fields| :: fields[i].name in ChoicesOf(fields)
              && ChoicesOf(fields)[fields[i].name] == fields[i].side.RightSide?
    ensures forall name | name in ChoicesOf(fields) :: exists i :: 0 <= i < |fields| && fields[i].name == name
  {
    if fields != [] {
      var n := |fields| - 1;
      ChoicesMean(fields[..n]);
      forall i | 0 <= i < n
        ensures fields[..n][i] == fields[i] && fields[i].name != fields[n].name
      {}
    }
  }

  /** Distinct picks of conflicting names, as many as there are, pick exactly those names. */
  lemma ExactIs(fields: seq<FieldResolution>, conflicting: seq<Name>)
    requires Once(conflicting)
    ensures ExactChoices(fields, conflicting) <==>
            && (forall i, j | 0 <= i < j < |fields| :: fields[i].name != fields[j].name)
            && (forall i | 0 <= i < |fields| :: fields[i].name != [])
            && forall name :: name in conflicting <==> exists i :: 0 <= i < |fields| && fields[i].name == name
  {
    if forall i, j | 0 <= i < j < |fields| :: fields[i].name != fields[j].name {
      var named := seq(|fields|, i requires 0 <= i < |fields| => fields[i].name);
      SizeOnce(named);
      SizeOnce(conflicting);
      var a, c := NamesIn(named), NamesIn(conflicting);
      if a <= c { SubsetSize(a, c); }
      if ExactChoices(fields, conflicting) {
        forall name | name in conflicting
          ensures exists i :: 0 <= i < |fields| && fields[i].name == name
        {
          assert name in c;
          assert name in a;
        }
      }
      if forall name :: name in conflicting <==> exists i :: 0 <= i < |fields| && fields[i].name == name {
        forall name
          ensures name in a <==> name in c
        {
          if name in a { assert name in conflicting; }
          if name in c {
            assert name in conflicting;
            var i :| 0 <= i < |fields| && fields[i].name == name;
            assert named[i] == name;
          }
        }
        assert a == c;
      }
    }
  }

  function NamesIn(names: seq<Name>): (s: set<Name>)
    ensures forall name :: name in s <==> name in names
  {
    set name | name in names
  }

  lemma {:induction false} SizeOnce(names: seq<Name>)
    requires Once(names)
    ensures |NamesIn(names)| == |names|
  {
    if names != [] {
      var n := |names| - 1;
      SizeOnce(names[..n]);
      assert NamesIn(names) == NamesIn(names[..n]) + {names[n]};
    }
  }

  /** What field choices synthesize is what picking the sides gives. */
  lemma PickedIs(codec: Codec, u: Uuid, kind: Bytes, base: Bytes, left: Bytes, right: Bytes, conflicting: seq<Name>,
                 fields: seq<FieldResolution>, payload: Bytes)
    requires AllLawful(codec) && Once(conflicting)
    requires forall name :: name in conflicting <==>
               DisputedName(codec, u, Some((kind, base)), Some((kind, left)), Some((kind, right)), name)
    ensures Picked(codec, u, Some((kind, base)), Some((kind, left)), Some((kind, right)), fields, payload) <==>
            ExactChoices(fields, conflicting)
            && FieldMergeOf(codec, u, kind, base, left, right, ChoicesOf(fields)) == Some(Merge(payload, []))
  {
    hide AllLawful, FieldMergeOf, DisputedName, United, ExactChoices, Once, ChoicesOf;
    ExactIs(fields, conflicting);
    var b: Showing, l: Showing, r: Showing := Some((kind, base)), Some((kind, left)), Some((kind, right));
    if ExactChoices(fields, conflicting) {
      ChoicesMean(fields);
      UnitedIs(codec, u, kind, base, left, right, ChoicesOf(fields), payload);
      forall picks: map<Name, bool> | forall i | 0 <= i < |fields| ::
          fields[i].name in picks && picks[fields[i].name] == fields[i].side.RightSide?
        ensures United(codec, u, b, l, r, picks, payload) <==> United(codec, u, b, l, r, ChoicesOf(fields), payload)
      {
        PicksAlike(codec, u, b, l, r, picks, ChoicesOf(fields), payload);
      }
    }
  }

  /** Only the picks of disputed names matter. */
  lemma PicksAlike(codec: Codec, u: Uuid, base: Showing, left: Showing, right: Showing, picks: map<Name, bool>,
                   others: map<Name, bool>, payload: Bytes)
    ensures (forall name | DisputedName(codec, u, base, left, right, name) ::
               name in picks && name in others && picks[name] == others[name]) ==>
            (United(codec, u, base, left, right, picks, payload) <==>
             United(codec, u, base, left, right, others, payload))
  {
    hide Reads;
    if forall name | DisputedName(codec, u, base, left, right, name) ::
         name in picks && name in others && picks[name] == others[name] {
      forall s, b, l, r | ReadAll(codec, u, base, left, right, s, b, l, r) && |s.names| == |b.fields| == |l.fields|
                          == |r.fields|
        ensures Unites(s, b, l, r, picks, payload) <==> Unites(s, b, l, r, others, payload)
      {
        forall i, v | 0 <= i < |s.names|
          ensures FieldUnited(s, i, b, l, r, picks, v) <==> FieldUnited(s, i, b, l, r, others, v)
        {
          if Disputed(s, i, b, l, r) { assert DisputedName(codec, u, base, left, right, s.names[i]); }
        }
      }
    }
  }
}
