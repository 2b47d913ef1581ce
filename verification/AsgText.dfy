/**
 The reply as AWS spells it, letter by letter: what the parser makes of that text,
 and of text that leaves fields out.
 */
module AsgText {
  import opened Options
  import opened Decimals
  import opened XmlScan
  import opened XmlForest
  import opened XmlReading
  import opened AsgParser
  import opened AsgRoundTrip

  function InstanceText(i: AsgInstance): string
  {
    "<member>" +
    ("<InstanceId>" + i.instanceId + "</InstanceId>") +
    ("<AvailabilityZone>" + i.availabilityZone + "</AvailabilityZone>") +
    ("<LifecycleState>" + i.lifecycleState + "</LifecycleState>") +
    ("<HealthStatus>" + i.healthStatus + "</HealthStatus>") +
    "</member>"
  }

  function InstancesText(s: seq<AsgInstance>): string
  {
    if s == [] then "" else InstanceText(s[0]) + InstancesText(s[1..])
  }

  function GroupText(g: AsgGroup): string
  {
    "<member>" +
    ("<AutoScalingGroupName>" + g.name + "</AutoScalingGroupName>") +
    ("<MinSize>" + ShowInt(g.min) + "</MinSize>") +
    ("<MaxSize>" + ShowInt(g.max) + "</MaxSize>") +
    ("<DesiredCapacity>" + ShowInt(g.desired) + "</DesiredCapacity>") +
    ("<Instances>" + InstancesText(g.instances) + "</Instances>") +
    "</member>"
  }

  function GroupsText(gs: seq<AsgGroup>): string
  {
    if gs == [] then "" else GroupText(gs[0]) + GroupsText(gs[1..])
  }

  /** The list of groups, and the request's id behind it. */
  function ReplyText(gs: seq<AsgGroup>, requestId: string): string
  {
    "<AutoScalingGroups>" + GroupsText(gs) + "</AutoScalingGroups>" +
    ("<ResponseMetadata>" + ("<RequestId>" + requestId + "</RequestId>") + "</ResponseMetadata>")
  }

  // -- printed trees are that text ---------------------------------------------------------

  lemma LeafText(tag: string, text: string)
    ensures Render(Leaf(tag, text)) == Open(tag) + text + Close(tag)
  {
    var kids := [Text(text)];
    assert kids[1..] == [] && RenderAll(kids[1..]) == "" && RenderAll(kids) == text;
  }

  lemma {:induction false} NodeText(tag: string, kids: seq<Xml>)
    ensures Render(Node(tag, kids)) == Open(tag) + RenderAll(kids) + Close(tag)
  {
  }

  /** The texts of five trees behind one another. */
  lemma {:induction false} FiveTexts(a: Xml, b: Xml, c: Xml, d: Xml, rest: seq<Xml>)
    ensures RenderAll([a, b, c, d] + rest) == Render(a) + Render(b) + Render(c) + Render(d) + RenderAll(rest)
  {
    hide Render;
    var f := [a, b, c, d] + rest;
    assert f[1..] == [b, c, d] + rest && f[1..][1..] == [c, d] + rest;
    assert f[1..][1..][1..] == [d] + rest && f[1..][1..][1..][1..] == rest;
    assert RenderAll([d] + rest) == Render(d) + RenderAll(rest) by {
      assert ([d] + rest)[1..] == rest;
    }
    assert RenderAll([c, d] + rest) == Render(c) + RenderAll([d] + rest) by {
      assert ([c, d] + rest)[1..] == [d] + rest;
    }
    assert RenderAll([b, c, d] + rest) == Render(b) + RenderAll([c, d] + rest);
    assert RenderAll(f) == Render(a) + RenderAll([b, c, d] + rest);
    Regroup(Render(a), Render(b), Render(c), Render(d), RenderAll(rest));
  }

  lemma Regroup(a: string, b: string, c: string, d: string, r: string)
    ensures a + (b + (c + (d + r))) == a + b + c + d + r
  {
  }

  lemma InstanceNames()
    ensures Open(MEMBER) == "<member>" && Close(MEMBER) == "</member>"
    ensures Open(INSTANCE_ID) == "<InstanceId>" && Close(INSTANCE_ID) == "</InstanceId>"
    ensures Open(ZONE) == "<AvailabilityZone>" && Close(ZONE) == "</AvailabilityZone>"
    ensures Open(LIFECYCLE) == "<LifecycleState>" && Close(LIFECYCLE) == "</LifecycleState>"
    ensures Open(HEALTH) == "<HealthStatus>" && Close(HEALTH) == "</HealthStatus>"
  {
    hide Open, Close;
    MemberNames();
    StateNames();
  }

  lemma MemberNames()
    ensures Open(MEMBER) == "<member>" && Close(MEMBER) == "</member>"
    ensures Open(INSTANCE_ID) == "<InstanceId>" && Close(INSTANCE_ID) == "</InstanceId>"
  {
  }

  lemma StateNames()
    ensures Open(ZONE) == "<AvailabilityZone>" && Close(ZONE) == "</AvailabilityZone>"
    ensures Open(LIFECYCLE) == "<LifecycleState>" && Close(LIFECYCLE) == "</LifecycleState>"
    ensures Open(HEALTH) == "<HealthStatus>" && Close(HEALTH) == "</HealthStatus>"
  {
  }

  lemma GroupNames()
    ensures Open(GROUP_NAME) == "<AutoScalingGroupName>" && Close(GROUP_NAME) == "</AutoScalingGroupName>"
    ensures Open(MIN_SIZE) == "<MinSize>" && Close(MIN_SIZE) == "</MinSize>"
    ensures Open(MAX_SIZE) == "<MaxSize>" && Close(MAX_SIZE) == "</MaxSize>"
    ensures Open(DESIRED) == "<DesiredCapacity>" && Close(DESIRED) == "</DesiredCapacity>"
    ensures Open(INSTANCES) == "<Instances>" && Close(INSTANCES) == "</Instances>"
  {
    hide Open, Close;
    SizeNames();
    OuterNames();
  }

  lemma SizeNames()
    ensures Open(MIN_SIZE) == "<MinSize>" && Close(MIN_SIZE) == "</MinSize>"
    ensures Open(MAX_SIZE) == "<MaxSize>" && Close(MAX_SIZE) == "</MaxSize>"
    ensures Open(DESIRED) == "<DesiredCapacity>" && Close(DESIRED) == "</DesiredCapacity>"
  {
  }

  lemma OuterNames()
    ensures Open(GROUP_NAME) == "<AutoScalingGroupName>" && Close(GROUP_NAME) == "</AutoScalingGroupName>"
    ensures Open(INSTANCES) == "<Instances>" && Close(INSTANCES) == "</Instances>"
  {
  }

  lemma PrintedInstance(i: AsgInstance)
    ensures Render(PrintInstance(i)) == InstanceText(i)
  {
    hide Render, RenderAll, Open, Close, Leaf;
    InstanceNames();
    LeafText(INSTANCE_ID, i.instanceId);
    LeafText(ZONE, i.availabilityZone);
    LeafText(LIFECYCLE, i.lifecycleState);
    LeafText(HEALTH, i.healthStatus);
    var a, b := Leaf(INSTANCE_ID, i.instanceId), Leaf(ZONE, i.availabilityZone);
    var c, d := Leaf(LIFECYCLE, i.lifecycleState), Leaf(HEALTH, i.healthStatus);
    FiveTexts(a, b, c, d, []);
    NoText();
    assert [a, b, c, d] + [] == [a, b, c, d];
    NodeText(MEMBER, [a, b, c, d]);
    Wrapped("<member>", Render(a), Render(b), Render(c), Render(d), "", "</member>");
  }

  lemma NoText()
    ensures RenderAll([]) == ""
  {
  }

  lemma Wrapped(o: string, a: string, b: string, c: string, d: string, r: string, e: string)
    ensures o + (a + b + c + d + r) + e == o + a + b + c + d + r + e
    ensures r == "" ==> o + (a + b + c + d + r) + e == o + a + b + c + d + e
  {
  }

  lemma {:induction false} PrintedInstances(s: seq<AsgInstance>)
    ensures RenderAll(PrintInstances(s)) == InstancesText(s)
  {
    hide Render, InstanceText, PrintInstance;
    if s != [] {
      PrintedInstance(s[0]);
      PrintedInstances(s[1..]);
      assert PrintInstances(s)[1..] == PrintInstances(s[1..]);
    }
  }

  lemma PrintedGroup(g: AsgGroup)
    ensures Render(PrintGroup(g)) == GroupText(g)
  {
    hide Render, RenderAll, Open, Close, Leaf, ShowInt, PrintInstances, InstancesText;
    InstanceNames();
    GroupNames();
    LeafText(GROUP_NAME, g.name);
    LeafText(MIN_SIZE, ShowInt(g.min));
    LeafText(MAX_SIZE, ShowInt(g.max));
    LeafText(DESIRED, ShowInt(g.desired));
    var a, b := Leaf(GROUP_NAME, g.name), Leaf(MIN_SIZE, ShowInt(g.min));
    var c, d := Leaf(MAX_SIZE, ShowInt(g.max)), Leaf(DESIRED, ShowInt(g.desired));
    var e := Node(INSTANCES, PrintInstances(g.instances));
    PrintedInstances(g.instances);
    NodeText(INSTANCES, PrintInstances(g.instances));
    OneText(e);
    FiveTexts(a, b, c, d, [e]);
    assert [a, b, c, d] + [e] == [a, b, c, d, e];
    NodeText(MEMBER, [a, b, c, d, e]);
    Wrapped("<member>", Render(a), Render(b), Render(c), Render(d), Render(e), "</member>");
  }

  lemma OneText(x: Xml)
    ensures RenderAll([x]) == Render(x)
  {
    assert [x][1..] == [] && RenderAll([]) == "";
  }

  lemma {:induction false} PrintedGroups(gs: seq<AsgGroup>)
    ensures RenderAll(PrintGroups(gs)) == GroupsText(gs)
  {
    hide Render, GroupText, PrintGroup;
    if gs != [] {
      PrintedGroup(gs[0]);
      PrintedGroups(gs[1..]);
      assert PrintGroups(gs)[1..] == PrintGroups(gs[1..]);
    }
  }

  // -- the reply -------------------------------------------------------------------------------

  const GROUPS := "AutoScalingGroups"
  const METADATA := "ResponseMetadata"
  const REQUEST_ID := "RequestId"

  function Metadata(requestId: string): Xml
  {
    Node(METADATA, [Leaf(REQUEST_ID, requestId)])
  }

  function ListLayer(requestId: string): Layer
  {
    Layer([], GROUPS, [Metadata(requestId)])
  }

  lemma ListNames()
    ensures Open(GROUPS) == "<AutoScalingGroups>" && Close(GROUPS) == "</AutoScalingGroups>"
    ensures ElementName(GROUPS) && GROUPS != MEMBER
  {
    assert |GROUPS| == 17;
  }

  lemma MetadataNames()
    ensures Open(METADATA) == "<ResponseMetadata>" && Close(METADATA) == "</ResponseMetadata>"
    ensures Open(REQUEST_ID) == "<RequestId>" && Close(REQUEST_ID) == "</RequestId>"
    ensures ElementName(METADATA) && METADATA != MEMBER && ElementName(REQUEST_ID) && REQUEST_ID != MEMBER
  {
    assert |METADATA| == 16 && |REQUEST_ID| == 9;
  }

  lemma ProperMetadata(requestId: string)
    requires NoMarkup(requestId)
    ensures GoodAll([Metadata(requestId)]) && !MentionsAll([Metadata(requestId)], MEMBER)
  {
    hide ElementName, NoMarkup;
    MetadataNames();
    AloneIsGood(Text(requestId));
    AloneIsGood(Leaf(REQUEST_ID, requestId));
    AloneIsGood(Metadata(requestId));
  }

  lemma AloneIsGood(x: Xml)
    requires Good(x) && !Mentions(x, MEMBER)
    ensures GoodAll([x]) && !MentionsAll([x], MEMBER)
  {
    assert [x][1..] == [] && GoodAll([]) && !MentionsAll([], MEMBER);
  }

  lemma {:induction false} LayerText(l: Layer, layers: seq<Layer>, body: seq<Xml>)
    requires l.before == []
    ensures RenderAll(Reply([l] + layers, body)) ==
            Open(l.tag) + RenderAll(Reply(layers, body)) + Close(l.tag) + RenderAll(l.after)
  {
    hide Open, Close, Render;
    var inner := Reply(layers, body);
    assert ([l] + layers)[1..] == layers;
    var f := [] + [Node(l.tag, inner)] + l.after;
    assert Reply([l] + layers, body) == f;
    assert f[1..] == l.after;
    NodeText(l.tag, inner);
  }

  lemma PrintedReply(gs: seq<AsgGroup>, requestId: string)
    ensures RenderAll(Reply([ListLayer(requestId)], PrintGroups(gs))) == ReplyText(gs, requestId)
  {
    hide Open, Close, Render, RenderAll, Reply, Leaf, PrintGroups, GroupsText, ElementName;
    var body, leaf := PrintGroups(gs), Leaf(REQUEST_ID, requestId);
    assert [ListLayer(requestId)] == [ListLayer(requestId)] + [];
    ListNames();
    MetadataNames();
    LayerText(ListLayer(requestId), [], body);
    NoLayers(body);
    PrintedGroups(gs);
    OneText(Metadata(requestId));
    LeafText(REQUEST_ID, requestId);
    OneText(leaf);
    NodeText(METADATA, [leaf]);
  }

  lemma NoLayers(body: seq<Xml>)
    ensures Reply([], body) == body
  {
  }

  /** The round trip on the text itself: groups spelt out as AWS does are parsed back unchanged. */
  lemma ParseText(gs: seq<AsgGroup>, requestId: string)
    requires NoMarkup(requestId) && forall k :: 0 <= k < |gs| ==> Printable(gs[k])
    ensures GroupsFrom(ReplyText(gs, requestId)) == gs
  {
    hide Printable, GroupsFrom, ReplyText, Reply, RenderAll, PrintGroups, ElementName, Metadata, NoMarkup;
    ListNames();
    ProperMetadata(requestId);
    assert GoodAll([]) && !MentionsAll([], MEMBER);
    ParsePrint([ListLayer(requestId)], gs);
    PrintedReply(gs, requestId);
  }

  // -- what is missing -----------------------------------------------------------------------------

  /** What stands for a missing field, and for a number that cannot be read. */
  lemma MissingFields(group: string, text: string)
    requires NoMarkup(group) && Trim(group) == group
    ensures GroupsFrom("<member></member>") == []
    ensures InstanceFrom("") == AsgInstance("(unknown)", "", "", "")
    ensures Number(None) == 0 && (ParseI64(text).None? ==> Number(Some(text)) == 0)
    ensures GroupFrom("", group) == AsgGroup(group, 0, 0, 0, [])
  {
    hide Find, CloseAt;
    NothingInNothing(INSTANCE_ID);
    NothingInNothing(ZONE);
    NothingInNothing(LIFECYCLE);
    NothingInNothing(HEALTH);
    NothingInNothing(DESIRED);
    NothingInNothing(MIN_SIZE);
    NothingInNothing(MAX_SIZE);
    NothingInNothing(INSTANCES);
    NothingInNothing(GROUP_NAME);
    NamelessMember();
  }

  lemma NamelessMember()
    ensures GroupsFrom("<member></member>") == []
  {
    hide RenderAll, Render, Walk, Balanced, ExtractScalar;
    var f := [Node(MEMBER, [])];
    InstanceNames();
    NodeText(MEMBER, []);
    NoText();
    OneText(f[0]);
    assert "<member>" + "" + "</member>" == "<member></member>";
    TagsArePlain();
    assert Good(f[0]) && f[1..] == [] && GoodAll(f);
    WalkReadsOuter(f, MEMBER);
    assert OuterIn(f[0], MEMBER) == [[]] && OuterAll(f[1..], MEMBER) == [] && OuterAll(f, MEMBER) == [[]];
    assert Written([[]]) == [""] by {
      var none: seq<seq<Xml>> := [[]];
      assert none[1..] == [] && Written(none[1..]) == [];
    }
    NothingInNothing(GROUP_NAME);
    assert [""][1..] == [] && GroupsOf([]) == [];
    assert GroupsOf([""]) == MaybeGroup("") + GroupsOf([]);
  }
}
