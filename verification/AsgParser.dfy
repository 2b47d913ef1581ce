/**
 `parse_asg_describe`: walking a DescribeAutoScalingGroups reply by slicing past
 what the scanners return, and what that yields on documents written from trees.
 */
module AsgParser {
  import opened Options
  import opened Decimals
  import opened XmlScan
  import opened XmlForest
  import opened XmlReading

  datatype AsgInstance = AsgInstance(
    instanceId: string, availabilityZone: string, lifecycleState: string, healthStatus: string)

  datatype AsgGroup = AsgGroup(name: string, desired: int, min: int, max: int, instances: seq<AsgInstance>)

  const MEMBER := "member"
  const INSTANCES := "Instances"
  const GROUP_NAME := "AutoScalingGroupName"
  const DESIRED := "DesiredCapacity"
  const MIN_SIZE := "MinSize"
  const MAX_SIZE := "MaxSize"
  const INSTANCE_ID := "InstanceId"
  const ZONE := "AvailabilityZone"
  const LIFECYCLE := "LifecycleState"
  const HEALTH := "HealthStatus"

  function Or(o: Option<string>, default: string): string
  {
    match o case None => default case Some(s) => s
  }

  function Number(o: Option<string>): int
  {
    match o
    case None => 0
    case Some(s) => match ParseI64(s) case None => 0 case Some(n) => n
  }

  // -- the parser, as functions on strings -----------------------------------------------

  function InstanceFrom(xml: string): AsgInstance
  {
    AsgInstance(Or(ExtractScalar(xml, INSTANCE_ID), "(unknown)"), Or(ExtractScalar(xml, ZONE), ""),
                Or(ExtractScalar(xml, LIFECYCLE), ""), Or(ExtractScalar(xml, HEALTH), ""))
  }

  function InstancesOf(members: seq<string>): seq<AsgInstance>
  {
    if members == [] then [] else [InstanceFrom(members[0])] + InstancesOf(members[1..])
  }

  function InstancesFrom(block: string): seq<AsgInstance>
  {
    InstancesOf(Walk(block, MEMBER))
  }

  function GroupFrom(xml: string, name: string): AsgGroup
  {
    AsgGroup(name, Number(ExtractScalar(xml, DESIRED)), Number(ExtractScalar(xml, MIN_SIZE)),
             Number(ExtractScalar(xml, MAX_SIZE)),
             match Balanced(xml, INSTANCES) case None => [] case Some(block) => InstancesFrom(block))
  }

  /** A member without a group name is skipped. */
  function MaybeGroup(xml: string): seq<AsgGroup>
  {
    match ExtractScalar(xml, GROUP_NAME)
    case None => []
    case Some(name) => [GroupFrom(xml, name)]
  }

  function GroupsOf(members: seq<string>): seq<AsgGroup>
  {
    if members == [] then [] else MaybeGroup(members[0]) + GroupsOf(members[1..])
  }

  function GroupsFrom(xml: string): seq<AsgGroup>
  {
    GroupsOf(Walk(xml, MEMBER))
  }

  // -- the loops -------------------------------------------------------------------------------

  lemma TagsArePlain()
    ensures forall tag ::
      tag in [MEMBER, INSTANCES, GROUP_NAME, DESIRED, MIN_SIZE, MAX_SIZE, INSTANCE_ID, ZONE, LIFECYCLE, HEALTH] ==>
        ElementName(tag)
  {
  }

  method ParseInstances(block: string) returns (instances: seq<AsgInstance>)
    ensures instances == InstancesFrom(block)
  {
    hide Balanced, InstanceFrom, AfterFirst;
    TagsArePlain();
    instances := [];
    var remaining := block;
    while true
      invariant instances + InstancesFrom(remaining) == InstancesFrom(block)
      decreases |remaining|
    {
      var member := ExtractBalanced(remaining, MEMBER);
      if member.None? {
        return;
      }
      var xml := member.value;
      assert Walk(remaining, MEMBER) == [xml] + Walk(AfterFirst(remaining, MEMBER), MEMBER);
      remaining := Behind(remaining, MEMBER, xml);
      instances := instances + [InstanceFrom(xml)];
    }
  }

  /** One `<member>` of the reply: its group, or nothing when it has no name. */
  method ParseGroup(xml: string) returns (group: seq<AsgGroup>)
    ensures group == MaybeGroup(xml)
  {
    hide Balanced, InstancesFrom, ExtractScalar, Number;
    TagsArePlain();
    var name := ExtractScalar(xml, GROUP_NAME);
    if name.None? {
      return [];
    }
    var instances := [];
    var block := ExtractBalanced(xml, INSTANCES);
    if block.Some? {
      instances := ParseInstances(block.value);
    }
    group := [AsgGroup(name.value, Number(ExtractScalar(xml, DESIRED)), Number(ExtractScalar(xml, MIN_SIZE)),
                       Number(ExtractScalar(xml, MAX_SIZE)), instances)];
  }

  method ParseAsgDescribe(xml: string) returns (groups: seq<AsgGroup>)
    ensures groups == GroupsFrom(xml)
  {
    hide Balanced, MaybeGroup, AfterFirst;
    TagsArePlain();
    groups := [];
    var remaining := xml;
    while true
      invariant groups + GroupsFrom(remaining) == GroupsFrom(xml)
      decreases |remaining|
    {
      var member := ExtractBalanced(remaining, MEMBER);
      if member.None? {
        return;
      }
      var group := ParseGroup(member.value);
      assert Walk(remaining, MEMBER) == [member.value] + Walk(AfterFirst(remaining, MEMBER), MEMBER);
      remaining := Behind(remaining, MEMBER, member.value);
      groups := groups + group;
    }
  }

  // -- reading the tree ------------------------------------------------------------------------------

  function ReadInstance(kids: seq<Xml>): AsgInstance
  {
    AsgInstance(Or(Field(kids, INSTANCE_ID), "(unknown)"), Or(Field(kids, ZONE), ""),
                Or(Field(kids, LIFECYCLE), ""), Or(Field(kids, HEALTH), ""))
  }

  function ReadInstancesOf(members: seq<seq<Xml>>): seq<AsgInstance>
  {
    if members == [] then [] else [ReadInstance(members[0])] + ReadInstancesOf(members[1..])
  }

  /** One instance for each outermost member. */
  function ReadInstances(f: seq<Xml>): seq<AsgInstance>
  {
    ReadInstancesOf(OuterAll(f, MEMBER))
  }

  function ReadGroup(kids: seq<Xml>): seq<AsgGroup>
  {
    match Field(kids, GROUP_NAME)
    case None => []
    case Some(name) =>
      [AsgGroup(name, Number(Field(kids, DESIRED)), Number(Field(kids, MIN_SIZE)), Number(Field(kids, MAX_SIZE)),
                match FirstInAll(kids, INSTANCES) case None => [] case Some(f) => ReadInstances(f))]
  }

  function ReadGroupsOf(members: seq<seq<Xml>>): seq<AsgGroup>
  {
    if members == [] then [] else ReadGroup(members[0]) + ReadGroupsOf(members[1..])
  }

  /** One group for each outermost member of the document that has a name. */
  function ReadGroups(f: seq<Xml>): seq<AsgGroup>
  {
    ReadGroupsOf(OuterAll(f, MEMBER))
  }

  /** No field of the instance holds itself. */
  predicate InstanceShape(kids: seq<Xml>)
  {
    Unnested(kids, INSTANCE_ID) && Unnested(kids, ZONE) && Unnested(kids, LIFECYCLE) && Unnested(kids, HEALTH)
  }

  predicate GroupShape(kids: seq<Xml>)
  {
    && Unnested(kids, GROUP_NAME) && Unnested(kids, DESIRED) && Unnested(kids, MIN_SIZE) && Unnested(kids, MAX_SIZE)
    && (FirstInAll(kids, INSTANCES).Some? ==>
          forall m :: m in OuterAll(FirstInAll(kids, INSTANCES).value, MEMBER) ==> InstanceShape(m))
  }

  /** Any document whose members' fields do not hold themselves. */
  predicate GroupsShape(f: seq<Xml>)
  {
    GoodAll(f) && forall m :: m in OuterAll(f, MEMBER) ==> GroupShape(m)
  }

  lemma {:induction false} InstanceReads(kids: seq<Xml>)
    requires GoodAll(kids) && InstanceShape(kids)
    ensures InstanceFrom(RenderAll(kids)) == ReadInstance(kids)
  {
    hide ExtractScalar, Field, RenderAll, Unnested, GoodAll;
    TagsArePlain();
    ScalarReadsField(kids, INSTANCE_ID);
    ScalarReadsField(kids, ZONE);
    ScalarReadsField(kids, LIFECYCLE);
    ScalarReadsField(kids, HEALTH);
  }

  lemma {:induction false} InstancesRead(members: seq<seq<Xml>>)
    requires forall m :: m in members ==> GoodAll(m) && InstanceShape(m)
    ensures InstancesOf(Written(members)) == ReadInstancesOf(members)
  {
    hide InstanceFrom, ReadInstance, InstanceShape, GoodAll, RenderAll;
    if members != [] {
      InstanceReads(members[0]);
      InstancesRead(members[1..]);
    }
  }

  lemma {:induction false} InstancesReadTree(f: seq<Xml>)
    requires GoodAll(f) && forall m :: m in OuterAll(f, MEMBER) ==> InstanceShape(m)
    ensures InstancesFrom(RenderAll(f)) == ReadInstances(f)
  {
    hide InstanceShape, GoodAll, RenderAll, OuterAll, Walk, InstancesOf;
    TagsArePlain();
    WalkReadsOuter(f, MEMBER);
    OuterAreGood(f, MEMBER);
    InstancesRead(OuterAll(f, MEMBER));
  }

  lemma {:induction false} GroupReads(kids: seq<Xml>)
    requires GoodAll(kids) && GroupShape(kids)
    ensures MaybeGroup(RenderAll(kids)) == ReadGroup(kids)
  {
    hide ExtractScalar, Field, RenderAll, Unnested, GoodAll, Balanced, FirstInAll, InstancesFrom, ReadInstances,
         InstanceShape;
    TagsArePlain();
    ScalarReadsField(kids, GROUP_NAME);
    ScalarReadsField(kids, DESIRED);
    ScalarReadsField(kids, MIN_SIZE);
    ScalarReadsField(kids, MAX_SIZE);
    BalancedReadsFirst(kids, INSTANCES);
    FirstIsGood(kids, INSTANCES);
    match FirstInAll(kids, INSTANCES) {
      case None =>
      case Some(f) => InstancesReadTree(f);
    }
  }

  lemma {:induction false} GroupsRead(members: seq<seq<Xml>>)
    requires forall m :: m in members ==> GoodAll(m) && GroupShape(m)
    ensures GroupsOf(Written(members)) == ReadGroupsOf(members)
  {
    hide MaybeGroup, ReadGroup, GroupShape, GoodAll, RenderAll;
    if members != [] {
      GroupReads(members[0]);
      GroupsRead(members[1..]);
    }
  }

  /**
   The parser on a whole reply: wherever in the document the members lie and
   whatever lies beside them, in whatever order the fields stand and whatever else
   the members hold (nested member lists included), it returns what a reader of the
   tree would write down.
   */
  lemma {:induction false} ParseReadsTree(f: seq<Xml>)
    requires GroupsShape(f)
    ensures GroupsFrom(RenderAll(f)) == ReadGroups(f)
  {
    hide GroupShape, GoodAll, RenderAll, OuterAll, Walk, GroupsOf;
    TagsArePlain();
    WalkReadsOuter(f, MEMBER);
    OuterAreGood(f, MEMBER);
    GroupsRead(OuterAll(f, MEMBER));
  }
}
