/** From the write rules to the engine: a group that passes the check is one that the engine can serve. */
module GroupService {
  import opened WeightedPool
  import opened GroupSections
  import opened PoolLaws
  import R = GroupRules
  import M = ModelsCache
  import S = ModelsSafety
  import J = GroupJanitor
  import L = GroupLaws

  /** The members of a group as the engine gets them. */
  function RefsOf(members: seq<R.Member>): (refs: seq<MemberRef>)
    ensures |refs| == |members|
  {
    seq(|members|, i requires 0 <= i < |members| =>
      MemberRef(members[i].modelId, members[i].weight, members[i].backupOnly))
  }

  /** The rules, told in the values: at most sixteen members with distinct ids of their own and positive
      weights, each a listed plain chat model, and one of them at least for the default pool. */
  lemma PassedMeans(row: M.Row, members: seq<R.Member>, collection: seq<M.Row>)
    requires M.OneRowPerId(collection) && R.GroupOk(row, members, collection)
    ensures 1 <= |members| <= 16 && exists i :: 0 <= i < |members| && !members[i].backupOnly
    ensures forall i | 0 <= i < |members| :: members[i].modelId != "" && members[i].weight > 0.0
    ensures forall i, j | 0 <= i < j < |members| :: members[i].modelId != members[j].modelId
    ensures forall i | 0 <= i < |members| ::
      exists r :: r in collection && r.id == members[i].modelId && r.kind == M.Chat
    ensures row.shadow != "" ==>
      && (exists r :: r in collection && r.id == row.shadow && r.kind == M.Chat)
      && forall r | r in collection && r.id != row.id && r.kind == M.Group && r.enabled :: r.shadow != row.shadow
  {
    forall i | 0 <= i < |members|
      ensures exists r :: r in collection && r.id == members[i].modelId && r.kind == M.Chat
    {
      assert R.MemberOk(M.ById(collection), members[i]);
      Listed(collection, members[i].modelId);
    }
    if row.shadow != "" {
      Listed(collection, row.shadow);
    }
  }

  lemma Listed(collection: seq<M.Row>, id: string)
    requires M.OneRowPerId(collection) && id in M.ById(collection)
    ensures exists r :: r in collection && r.id == id && r == M.ById(collection)[id]
  {
    S.ByIdFacts(collection);
    assert M.ById(collection)[id] in M.ById(collection).Values;
  }

  /** And nothing more is asked: a group of which all this holds passes. */
  lemma MeansPassed(row: M.Row, members: seq<R.Member>, collection: seq<M.Row>)
    requires M.OneRowPerId(collection)
    requires 1 <= |members| <= 16 && exists i :: 0 <= i < |members| && !members[i].backupOnly
    requires forall i | 0 <= i < |members| :: members[i].modelId != "" && members[i].weight > 0.0
    requires forall i, j | 0 <= i < j < |members| :: members[i].modelId != members[j].modelId
    requires forall i | 0 <= i < |members| ::
      exists r :: r in collection && r.id == members[i].modelId && r.kind == M.Chat
    requires row.shadow != "" ==>
      && (exists r :: r in collection && r.id == row.shadow && r.kind == M.Chat)
      && forall r | r in collection && r.id != row.id && r.kind == M.Group && r.enabled :: r.shadow != row.shadow
    ensures R.GroupOk(row, members, collection)
  {
    S.ByIdFacts(collection);
    forall i | 0 <= i < |members| ensures R.MemberOk(M.ById(collection), members[i]) {
      var r :| r in collection && r.id == members[i].modelId && r.kind == M.Chat;
    }
    if row.shadow != "" {
      var r :| r in collection && r.id == row.shadow && r.kind == M.Chat;
      assert R.ShadowFree(row, collection);
    }
  }

  /** A passed group is published in order, and a lookup in the new group never fails, whatever the
      conversation, the moment and the draw: it is served by a default member. */
  lemma PassedIsServed(row: M.Row, members: seq<R.Member>, collection: seq<M.Row>, ttl: int, key: string, now: int,
                       u: Rand)
    requires M.OneRowPerId(collection) && R.GroupOk(row, members, collection)
    ensures var s := NewState(RefsOf(members));
      var out := J.GetNow(s, ttl, key, now, u).1;
      && Inv(s) && !out.failed
      && exists i :: 0 <= i < |members| && members[i].modelId == out.member && !members[i].backupOnly
  {
    PassedMeans(row, members, collection);
    var refs := RefsOf(members);
    var s := NewState(refs);
    NewIsSound(refs);
    var i :| 0 <= i < |members| && !members[i].backupOnly;
    SideFacts(refs, false, refs[i]);
    DefaultsAreWeighted(refs);
    L.GetLaw(s, ttl, key, now, u);
    var out := J.GetNow(s, ttl, key, now, u).1;
    if |members| > 1 {
      assert Drawable(s.def.refs, s.cooldowns, now);
      var k :| 0 <= k < |s.def.refs| && s.def.refs[k].id == out.member;
      SideFacts(refs, false, s.def.refs[k]);
      var j :| 0 <= j < |refs| && refs[j] == s.def.refs[k];
    }
  }

  lemma NewIsSound(refs: seq<MemberRef>)
    requires refs != [] && forall i | 0 <= i < |refs| :: refs[i].id != ""
    ensures Inv(NewState(refs))
  {
    SideIds(refs, false);
    SideIds(refs, true);
  }

  lemma DefaultsAreWeighted(refs: seq<MemberRef>)
    requires forall i | 0 <= i < |refs| :: refs[i].weight > 0.0
    ensures forall i | 0 <= i < |Side(refs, false)| :: Side(refs, false)[i].weight > 0.0
  {
    forall i | 0 <= i < |Side(refs, false)| ensures Side(refs, false)[i].weight > 0.0 {
      SideFacts(refs, false, Side(refs, false)[i]);
    }
  }
}
