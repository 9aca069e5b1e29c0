/** The write-time rules for groups (pkg/models/group.go) and what they guarantee of the stored rows:
    the source of claim uniqueness for the model cache. */
module GroupRules {
  import opened Options
  import opened ModelsCache
  import opened ModelsSafety
  import opened ModelsTransparency

  datatype Member = Member(modelId: string, weight: real, backupOnly: bool)

  const MAX_MEMBERS := 16

  datatype Fault =
    | NoMembers | TooManyMembers | NoDefaultMember
    | EmptyId(at: nat) | BadWeight(at: nat) | Duplicate(at: nat)
    | Missing(at: nat) | NestedGroup(at: nat) | NotChat(at: nat)
    | ShadowMissing | ShadowIsGroup | ShadowNotChat | ShadowTaken(owner: string)

  predicate MemberOk(byID: map<string, Row>, m: Member) {
    m.modelId != "" && m.weight > 0.0 && m.modelId in byID && byID[m.modelId].kind == Chat
  }

  ghost predicate MembersOk(byID: map<string, Row>, members: seq<Member>) {
    && (forall i | 0 <= i < |members| :: MemberOk(byID, members[i]))
    && (forall i, j | 0 <= i < j < |members| :: members[i].modelId != members[j].modelId)
  }

  ghost predicate ShadowFree(row: Row, collection: seq<Row>) {
    forall r | r in collection && r.id != row.id && r.IsGroup() && r.enabled :: r.shadow != row.shadow
  }

  ghost predicate ShadowOk(row: Row, collection: seq<Row>) {
    row.shadow == "" ||
      (row.shadow in ById(collection) && ById(collection)[row.shadow].kind == Chat && ShadowFree(row, collection))
  }

  /** One to sixteen members, one of them a default one; each an existing chat model with a positive
      weight, none twice; the claimed id an existing chat model that no other enabled group claims. */
  ghost predicate GroupOk(row: Row, members: seq<Member>, collection: seq<Row>) {
    && 1 <= |members| <= MAX_MEMBERS && (exists i :: 0 <= i < |members| && !members[i].backupOnly)
    && MembersOk(ById(collection), members) && ShadowOk(row, collection)
  }

  /** What a member fault says: everything before the member is in order, and this is wrong with it. */
  ghost predicate MemberFaultHolds(f: Fault, byID: map<string, Row>, members: seq<Member>) {
    match f
    case EmptyId(i) => i < |members| && MembersOk(byID, members[..i]) && members[i].modelId == ""
    case BadWeight(i) => i < |members| && MembersOk(byID, members[..i]) && members[i].weight <= 0.0
    case Duplicate(i) =>
      && i < |members| && MembersOk(byID, members[..i])
      && exists j :: 0 <= j < i && members[j].modelId == members[i].modelId
    case Missing(i) => i < |members| && MembersOk(byID, members[..i]) && members[i].modelId !in byID
    case NestedGroup(i) => i < |members| && MembersOk(byID, members[..i]) && members[i].modelId in byID
        && byID[members[i].modelId].kind == Group
    case NotChat(i) => i < |members| && MembersOk(byID, members[..i]) && members[i].modelId in byID
        && byID[members[i].modelId].kind == Other
    case _ => false
  }

  ghost predicate ShadowFaultHolds(f: Fault, row: Row, collection: seq<Row>) {
    var byID := ById(collection);
    match f
    case ShadowMissing => row.shadow !in byID
    case ShadowIsGroup => row.shadow in byID && byID[row.shadow].kind == Group
    case ShadowNotChat => row.shadow in byID && byID[row.shadow].kind == Other
    case ShadowTaken(owner) =>
      exists r :: r in collection && r.id == owner != row.id && r.IsGroup() && r.enabled && r.shadow == row.shadow
    case _ => false
  }

  /** The fault that is reported is a fault of the input, the first one in the order of the rules. */
  ghost predicate FaultHolds(f: Fault, row: Row, members: seq<Member>, collection: seq<Row>) {
    match f
    case NoMembers => |members| == 0
    case TooManyMembers => |members| > MAX_MEMBERS
    case NoDefaultMember => forall i | 0 <= i < |members| :: members[i].backupOnly
    case _ =>
      MemberFaultHolds(f, ById(collection), members)
      || (MembersOk(ById(collection), members) && ShadowFaultHolds(f, row, collection))
  }

  method BuildIndex(collection: seq<Row>) returns (byID: map<string, Row>)
    ensures byID == ById(collection)
  {
    byID := map[];
    for i := 0 to |collection|
      invariant byID == ById(collection[..i])
    {
      assert collection[..i + 1][..i] == collection[..i];
      byID := byID[collection[i].id := collection[i]];
    }
    assert collection[..|collection|] == collection;
  }

  method CheckMembers(byID: map<string, Row>, members: seq<Member>) returns (fault: Option<Fault>)
    ensures fault.None? <==> MembersOk(byID, members)
    ensures fault.Some? ==> MemberFaultHolds(fault.value, byID, members)
  {
    var seen: set<string> := {};
    for i := 0 to |members|
      invariant MembersOk(byID, members[..i])
      invariant forall j | 0 <= j < i :: members[j].modelId in seen
      invariant forall id | id in seen :: exists j :: 0 <= j < i && members[j].modelId == id
    {
      var m := members[i];
      if m.modelId == "" {
        return Some(EmptyId(i));
      }
      if m.weight <= 0.0 {
        return Some(BadWeight(i));
      }
      if m.modelId in seen {
        return Some(Duplicate(i));
      }
      seen := seen + {m.modelId};
      if m.modelId !in byID {
        return Some(Missing(i));
      }
      if byID[m.modelId].IsGroup() {
        return Some(NestedGroup(i));
      }
      if byID[m.modelId].kind != Chat {
        return Some(NotChat(i));
      }
    }
    assert members[..|members|] == members;
    return None;
  }

  method CheckShadow(row: Row, byID: map<string, Row>, collection: seq<Row>) returns (fault: Option<Fault>)
    requires byID == ById(collection)
    ensures fault.None? <==> ShadowOk(row, collection)
    ensures fault.Some? ==> ShadowFaultHolds(fault.value, row, collection)
  {
    if row.shadow == "" {
      return None;
    }
    if row.shadow !in byID {
      return Some(ShadowMissing);
    }
    if byID[row.shadow].IsGroup() {
      return Some(ShadowIsGroup);
    }
    if byID[row.shadow].kind != Chat {
      return Some(ShadowNotChat);
    }
    for i := 0 to |collection|
      invariant forall j | 0 <= j < i && collection[j].id != row.id && collection[j].IsGroup()
          && collection[j].enabled ::
        collection[j].shadow != row.shadow
    {
      var other := collection[i];
      if other.id == row.id || !other.IsGroup() {
        continue;
      }
      if other.enabled && other.shadow == row.shadow {
        return Some(ShadowTaken(other.id));
      }
    }
    return None;
  }

  /** ValidateGroupMembers: accepts exactly the groups that satisfy the rules. */
  method ValidateGroupMembers(row: Row, members: seq<Member>, collection: seq<Row>) returns (fault: Option<Fault>)
    ensures fault.None? <==> GroupOk(row, members, collection)
    ensures fault.Some? ==> FaultHolds(fault.value, row, members, collection)
  {
    if |members| == 0 {
      return Some(NoMembers);
    }
    if |members| > MAX_MEMBERS {
      return Some(TooManyMembers);
    }
    var defaults := 0;
    for i := 0 to |members|
      invariant defaults > 0 <==> exists j :: 0 <= j < i && !members[j].backupOnly
      invariant defaults >= 0
    {
      if !members[i].backupOnly {
        defaults := defaults + 1;
      }
    }
    if defaults < 1 {
      return Some(NoDefaultMember);
    }
    var byID := BuildIndex(collection);
    fault := CheckMembers(byID, members);
    if fault.Some? {
      return;
    }
    fault := CheckShadow(row, byID, collection);
  }

  // ------------------------------------------------------------- what accepted writes keep

  /** The store's part of an accepted write, on the proposed rows: a group obeys the shadow rules,
      the one that forbids its own id included; other kinds are not looked at. */
  ghost predicate Accepted(proposed: Store, row: Row) {
    row.IsGroup() && row.shadow != "" ==>
      && row.shadow != row.id && row.shadow in proposed && proposed[row.shadow].kind == Chat
      && forall g | g in proposed && g != row.id && proposed[g].IsGroup() && proposed[g].enabled ::
          proposed[g].shadow != row.shadow
  }

  /** A group that passed the check is accepted in this sense. */
  lemma ValidIsAccepted(row: Row, members: seq<Member>, collection: seq<Row>)
    requires OneRowPerId(collection) && GroupOk(row, members, collection) && row.shadow != row.id
    ensures Accepted(ById(collection), row)
  {
    ByIdFacts(collection);
    var s := ById(collection);
    forall g | g in s && g != row.id && s[g].IsGroup() && s[g].enabled && row.shadow != ""
      ensures s[g].shadow != row.shadow
    {
      assert s[g] in s.Values;
    }
  }

  /** Some group claims this id, enabled or not. */
  ghost predicate ShadowedBy(s: Store, id: string) {
    exists g :: g in s && s[g].IsGroup() && s[g].shadow == id
  }

  lemma InstallOrderlyIff(s: Store, row: Row)
    requires Orderly(s) && Accepted(s[row.id := row], row) && row.id != ""
    ensures Orderly(s[row.id := row]) <==> !(row.IsGroup() && ShadowedBy(s[row.id := row], row.id))
  {
    var s' := s[row.id := row];
    if row.IsGroup() && ShadowedBy(s', row.id) {
      var g :| g in s' && s'[g].IsGroup() && s'[g].shadow == row.id;
      assert !Orderly(s');
    } else {
      forall g, h, id | Claimant(s', g, id) && Claimant(s', h, id) ensures g == h {
        assert g != row.id ==> Claimant(s, g, id);
        assert h != row.id ==> Claimant(s, h, id);
      }
      forall g | g in s' && s'[g].IsGroup() && s'[g].shadow != ""
        ensures s'[g].shadow != g && (s'[g].shadow in s' ==> !s'[s'[g].shadow].IsGroup())
      {
        assert s'[g].shadow == row.id ==> ShadowedBy(s', row.id);
      }
    }
  }

  lemma RemovalIsOrderly(s: Store, id: string)
    requires Orderly(s)
    ensures Orderly(s - {id})
  {
    var s' := s - {id};
    forall g, h, x | Claimant(s', g, x) && Claimant(s', h, x) ensures g == h {
      assert Claimant(s, g, x) && Claimant(s, h, x);
    }
  }

  /** The rules keep claims unique and claimed ids plain, with one gap: they do not stop a model that
      a group already claims from being turned into a group itself. Accepted writes keep the store
      orderly exactly when they do not do that. */
  lemma AcceptedWritesOrderlyIff(s: Store, op: Op)
    requires Orderly(s) && (op.Add? || op.Update? || op.Remove?)
    requires !op.Remove? ==> Accepted(StoreAfter(s, op), op.row) && op.row.id != ""
    ensures Orderly(StoreAfter(s, op))
      <==> (op.Remove? || !(op.row.IsGroup() && ShadowedBy(StoreAfter(s, op), op.row.id)))
  {
    match op {
      case Add(row, _) => InstallOrderlyIff(s, row);
      case Update(id, row, _) =>
        RemovalIsOrderly(s, id);
        InstallOrderlyIff(s - {id}, row);
      case Remove(id, _) => RemovalIsOrderly(s, id);
    }
  }

  const ModelA := Row("a", "a", Chat, true, "", "")
  const ModelB := Row("b", "b", Chat, true, "", "")
  const GroupG := Row("g", "g", Group, true, "a", "")
  const OnlyB := [Member("b", 1.0, false)]

  lemma StoredRows()
    ensures ById([ModelA, ModelB]) == map["a" := ModelA, "b" := ModelB]
    ensures ById([ModelA, ModelB, GroupG]) == map["a" := ModelA, "b" := ModelB, "g" := GroupG]
  {
    var two, three := [ModelA, ModelB], [ModelA, ModelB, GroupG];
    assert two[..1] == [ModelA] && [ModelA][..0] == [] && three[..2] == two;
    assert ById([]) == map[] && ById([ModelA]) == map["a" := ModelA];
  }

  /** Both groups pass the check of their members and of the claim, against the models stored then. */
  lemma WritesPass()
    ensures GroupOk(GroupG, OnlyB, [ModelA, ModelB])
    ensures GroupOk(ModelA.(kind := Group), OnlyB, [ModelA, ModelB, GroupG])
  {
    StoredRows();
    assert !OnlyB[0].backupOnly;
  }

  /** The gap is reached by writes that the check lets pass: two models, a group over b that claims a, and
      an update that turns a into a group over b. */
  lemma ClaimedModelBecomesGroup() returns (s: Store, claim: Op, update: Op)
    ensures s == ById([ModelA, ModelB]) && Orderly(s) && claim == Add(GroupG, map[])
    ensures update == Update("a", ModelA.(kind := Group), map[])
    ensures GroupOk(claim.row, OnlyB, [ModelA, ModelB])
    ensures GroupOk(update.row, OnlyB, [ModelA, ModelB, GroupG])
    ensures var s1 := StoreAfter(s, claim);
      var s2 := StoreAfter(s1, update);
      && s1 == ById([ModelA, ModelB, GroupG]) && Accepted(s1, claim.row) && Accepted(s2, update.row)
      && Orderly(s1) && !Orderly(s2)
  {
    StoredRows();
    WritesPass();
    s, claim, update := ById([ModelA, ModelB]), Add(GroupG, map[]), Update("a", ModelA.(kind := Group), map[]);
    OrderlyUntilUpdate();
  }

  lemma OrderlyUntilUpdate()
    ensures var s := map["a" := ModelA, "b" := ModelB];
      var s1 := s["g" := GroupG];
      && Orderly(s) && Orderly(s1) && Accepted(s1, GroupG)
      && !Orderly((s1 - {"a"})["a" := ModelA.(kind := Group)])
  {
    var s1 := map["a" := ModelA, "b" := ModelB]["g" := GroupG];
    assert forall x, id | Claimant(s1, x, id) :: x == "g";
    var s2 := (s1 - {"a"})["a" := ModelA.(kind := Group)];
    assert s2["g"].IsGroup() && s2["g"].shadow == "a" && s2["a"].IsGroup();
  }
}
