/**
 The print/parse round trip at string level: groups written out as a
 DescribeAutoScalingGroups reply come back from the parser unchanged.
 */
module AsgRoundTrip {
  import opened Options
  import opened Decimals
  import opened XmlScan
  import opened XmlForest
  import opened XmlReading
  import opened AsgParser

  /** Field text as AWS writes it: no markup in it and no white space around it. */
  predicate FieldText(s: string) { NoMarkup(s) && Trim(s) == s }

  predicate I64(n: int) { I64_MIN <= n <= I64_MAX }

  predicate Printable(g: AsgGroup)
  {
    && FieldText(g.name) && I64(g.desired) && I64(g.min) && I64(g.max)
    && forall i :: 0 <= i < |g.instances| ==> PrintableInstance(g.instances[i])
  }

  predicate PrintableInstance(i: AsgInstance)
  {
    FieldText(i.instanceId) && FieldText(i.availabilityZone) && FieldText(i.lifecycleState) && FieldText(i.healthStatus)
  }

  function Leaf(tag: string, text: string): Xml { Node(tag, [Text(text)]) }

  function PrintInstance(i: AsgInstance): Xml
  {
    Node(MEMBER, [Leaf(INSTANCE_ID, i.instanceId), Leaf(ZONE, i.availabilityZone),
                  Leaf(LIFECYCLE, i.lifecycleState), Leaf(HEALTH, i.healthStatus)])
  }

  function PrintInstances(s: seq<AsgInstance>): seq<Xml>
  {
    if s == [] then [] else [PrintInstance(s[0])] + PrintInstances(s[1..])
  }

  function PrintGroup(g: AsgGroup): Xml
  {
    Node(MEMBER, [Leaf(GROUP_NAME, g.name), Leaf(MIN_SIZE, ShowInt(g.min)), Leaf(MAX_SIZE, ShowInt(g.max)),
                  Leaf(DESIRED, ShowInt(g.desired)), Node(INSTANCES, PrintInstances(g.instances))])
  }

  function PrintGroups(gs: seq<AsgGroup>): seq<Xml>
  {
    if gs == [] then [] else [PrintGroup(gs[0])] + PrintGroups(gs[1..])
  }

  // -- numbers as field text -----------------------------------------------------------

  lemma TrimKeeps(s: string)
    requires s != "" && !IsSpace(s[0]) && !IsSpace(s[|s| - 1])
    ensures Trim(s) == s
  {
  }

  lemma NumberText(n: int)
    requires I64(n)
    ensures FieldText(ShowInt(n)) && Number(Some(Trim(ShowInt(n)))) == n
  {
    var s := ShowInt(n);
    DecimalIsDigits(if n < 0 then -n else n);
    hide Decimal, ParseI64, Trim;
    assert forall i :: 0 <= i < |s| ==> IsDigit(s[i]) || s[i] == '-';
    TrimKeeps(s);
    ParseI64RoundTrip(n);
  }

  // -- fields of a flat element ----------------------------------------------------------

  lemma {:induction false} LeafFirst(tag: string, text: string, rest: seq<Xml>)
    requires ElementName(tag) && NoMarkup(text) && GoodAll(rest)
    ensures var f := [Leaf(tag, text)] + rest;
            GoodAll(f) && Unnested(f, tag) && Field(f, tag) == Some(Trim(text))
  {
    hide Trim;
    var f := [Leaf(tag, text)] + rest;
    var inner := [Text(text)];
    assert inner[1..] == [] && RenderAll(inner[1..]) == "" && RenderAll(inner) == text;
    assert GoodAll(inner[1..]) && Good(inner[0]) && GoodAll(inner);
    assert !MentionsAll(inner[1..], tag) && !Mentions(inner[0], tag);
    assert f[1..] == rest;
    assert FirstInAll(f, tag) == Some(inner);
  }

  lemma {:induction false} LeafElsewhere(tag: string, other: string, text: string, rest: seq<Xml>)
    requires tag != other
    ensures var f := [Leaf(other, text)] + rest;
            FirstInAll(f, tag) == FirstInAll(rest, tag) && OuterAll(f, tag) == OuterAll(rest, tag)
  {
    var f := [Leaf(other, text)] + rest;
    assert f[1..] == rest;
    var inner := [Text(text)];
    assert inner[1..] == [];
    assert FirstInAll(inner[1..], tag) == None && FirstInAll(inner, tag) == None;
    assert OuterAll(inner[1..], tag) == [] && OuterAll(inner, tag) == [];
    assert FirstIn(f[0], tag) == None && OuterIn(f[0], tag) == [];
  }

  lemma FieldNamesDiffer()
    ensures INSTANCE_ID !in {ZONE, LIFECYCLE, HEALTH} && ZONE !in {LIFECYCLE, HEALTH} && LIFECYCLE != HEALTH
    ensures GROUP_NAME !in {MIN_SIZE, MAX_SIZE, DESIRED} && MIN_SIZE !in {MAX_SIZE, DESIRED} && MAX_SIZE != DESIRED
    ensures INSTANCES !in {GROUP_NAME, MIN_SIZE, MAX_SIZE, DESIRED}
  {
    assert |INSTANCE_ID| == 10 && |ZONE| == 16 && |LIFECYCLE| == 14 && |HEALTH| == 12;
    assert |GROUP_NAME| == 20 && |MIN_SIZE| == 7 && |MAX_SIZE| == 7 && |DESIRED| == 15 && |INSTANCES| == 9;
    assert MIN_SIZE[1] != MAX_SIZE[1];
  }

  lemma EmptyIsGood()
    ensures GoodAll([])
  {
  }

  lemma InstanceReadsBack(i: AsgInstance)
    requires PrintableInstance(i)
    ensures var kids := PrintInstance(i).kids;
            GoodAll(kids) && InstanceShape(kids) && ReadInstance(kids) == i
  {
    hide FirstInAll, OuterAll, GoodAll, Trim, Leaf, NoMarkup, ElementName, MentionsAll, RenderAll;
    TagsArePlain();
    FieldNamesDiffer();
    var d: seq<Xml> := [];
    var c := [Leaf(HEALTH, i.healthStatus)] + d;
    var b := [Leaf(LIFECYCLE, i.lifecycleState)] + c;
    var a := [Leaf(ZONE, i.availabilityZone)] + b;
    var all := [Leaf(INSTANCE_ID, i.instanceId)] + a;
    assert PrintInstance(i).kids == all;
    EmptyIsGood();
    LeafFirst(HEALTH, i.healthStatus, d);
    LeafFirst(LIFECYCLE, i.lifecycleState, c);
    LeafFirst(ZONE, i.availabilityZone, b);
    LeafFirst(INSTANCE_ID, i.instanceId, a);
    LeafElsewhere(HEALTH, LIFECYCLE, i.lifecycleState, c);
    LeafElsewhere(HEALTH, ZONE, i.availabilityZone, b);
    LeafElsewhere(HEALTH, INSTANCE_ID, i.instanceId, a);
    LeafElsewhere(LIFECYCLE, ZONE, i.availabilityZone, b);
    LeafElsewhere(LIFECYCLE, INSTANCE_ID, i.instanceId, a);
    LeafElsewhere(ZONE, INSTANCE_ID, i.instanceId, a);
  }

  /** The members of a printed list, and that they are all there is to find. */
  function Contents(s: seq<AsgInstance>): seq<seq<Xml>>
  {
    if s == [] then [] else [PrintInstance(s[0]).kids] + Contents(s[1..])
  }

  lemma {:induction false} InstancesReadBack(s: seq<AsgInstance>)
    requires forall k :: 0 <= k < |s| ==> PrintableInstance(s[k])
    ensures GoodAll(PrintInstances(s)) && OuterAll(PrintInstances(s), MEMBER) == Contents(s)
    ensures (forall m :: m in Contents(s) ==> InstanceShape(m)) && ReadInstances(PrintInstances(s)) == s
  {
    hide InstanceShape, ReadInstance, PrintableInstance;
    TagsArePlain();
    if s != [] {
      var f := PrintInstances(s);
      assert f[1..] == PrintInstances(s[1..]);
      InstanceReadsBack(s[0]);
      InstancesReadBack(s[1..]);
      assert f[0].tag == MEMBER && OuterIn(f[0], MEMBER) == [f[0].kids];
      assert Good(f[0]);
      assert Contents(s)[1..] == Contents(s[1..]);
    }
  }

  lemma {:induction false} ElementAlone(tag: string, kids: seq<Xml>)
    requires ElementName(tag) && GoodAll(kids)
    ensures GoodAll([Node(tag, kids)]) && FirstInAll([Node(tag, kids)], tag) == Some(kids)
  {
    assert Good(Node(tag, kids));
  }

  lemma GroupReadsBack(g: AsgGroup)
    requires Printable(g)
    ensures var kids := PrintGroup(g).kids;
            GoodAll(kids) && GroupShape(kids) && ReadGroup(kids) == [g]
  {
    hide FirstInAll, OuterAll, GoodAll, Trim, Leaf, NoMarkup, ElementName, MentionsAll, RenderAll, ShowInt,
         InstanceShape,
         ReadInstances, Number;
    TagsArePlain();
    FieldNamesDiffer();
    var inner := PrintInstances(g.instances);
    InstancesReadBack(g.instances);
    NumberText(g.min);
    NumberText(g.max);
    NumberText(g.desired);
    var d := [Node(INSTANCES, inner)];
    var c := [Leaf(DESIRED, ShowInt(g.desired))] + d;
    var b := [Leaf(MAX_SIZE, ShowInt(g.max))] + c;
    var a := [Leaf(MIN_SIZE, ShowInt(g.min))] + b;
    var all := [Leaf(GROUP_NAME, g.name)] + a;
    assert PrintGroup(g).kids == all;
    ElementAlone(INSTANCES, inner);
    LeafFirst(DESIRED, ShowInt(g.desired), d);
    LeafFirst(MAX_SIZE, ShowInt(g.max), c);
    LeafFirst(MIN_SIZE, ShowInt(g.min), b);
    LeafFirst(GROUP_NAME, g.name, a);
    LeafElsewhere(INSTANCES, DESIRED, ShowInt(g.desired), d);
    LeafElsewhere(INSTANCES, MAX_SIZE, ShowInt(g.max), c);
    LeafElsewhere(INSTANCES, MIN_SIZE, ShowInt(g.min), b);
    LeafElsewhere(INSTANCES, GROUP_NAME, g.name, a);
    LeafElsewhere(DESIRED, MAX_SIZE, ShowInt(g.max), c);
    LeafElsewhere(DESIRED, MIN_SIZE, ShowInt(g.min), b);
    LeafElsewhere(DESIRED, GROUP_NAME, g.name, a);
    LeafElsewhere(MAX_SIZE, MIN_SIZE, ShowInt(g.min), b);
    LeafElsewhere(MAX_SIZE, GROUP_NAME, g.name, a);
    LeafElsewhere(MIN_SIZE, GROUP_NAME, g.name, a);
  }

  lemma GroupIsMember(g: AsgGroup)
    requires GoodAll(PrintGroup(g).kids)
    ensures Good(PrintGroup(g)) && OuterIn(PrintGroup(g), MEMBER) == [PrintGroup(g).kids]
  {
    hide GoodAll, ShowInt;
    TagsArePlain();
  }

  lemma {:induction false} GroupsReadBack(gs: seq<AsgGroup>)
    requires forall k :: 0 <= k < |gs| ==> Printable(gs[k])
    ensures GroupsShape(PrintGroups(gs)) && ReadGroups(PrintGroups(gs)) == gs
  {
    hide GroupShape, ReadGroup, Printable, PrintGroup, Good;
    if gs != [] {
      var f := PrintGroups(gs);
      assert f[1..] == PrintGroups(gs[1..]);
      GroupReadsBack(gs[0]);
      GroupIsMember(gs[0]);
      GroupsReadBack(gs[1..]);
      assert OuterAll(f, MEMBER)[1..] == OuterAll(f[1..], MEMBER);
    }
  }

  // -- the reply around the groups -------------------------------------------------------------

  /** An element that wraps the list, with whatever stands before and behind it. */
  datatype Layer = Layer(before: seq<Xml>, tag: string, after: seq<Xml>)

  /** Elements with proper names, and no member anywhere beside the list. */
  predicate ProperLayer(l: Layer)
  {
    && ElementName(l.tag) && l.tag != MEMBER
    && GoodAll(l.before) && GoodAll(l.after) && !MentionsAll(l.before, MEMBER) && !MentionsAll(l.after, MEMBER)
  }

  /** The reply: the list inside the layers, outermost first. */
  function Reply(layers: seq<Layer>, body: seq<Xml>): seq<Xml>
  {
    if layers == [] then body
    else layers[0].before + [Node(layers[0].tag, Reply(layers[1..], body))] + layers[0].after
  }

  lemma {:induction false} NoneOutside(f: seq<Xml>, tag: string)
    requires !MentionsAll(f, tag)
    ensures OuterAll(f, tag) == []
  {
    if f != [] {
      match f[0] {
        case Text(_) =>
        case Node(_, kids) => NoneOutside(kids, tag);
      }
      NoneOutside(f[1..], tag);
    }
  }

  lemma {:induction false} ForestAppends(a: seq<Xml>, b: seq<Xml>, tag: string)
    ensures OuterAll(a + b, tag) == OuterAll(a, tag) + OuterAll(b, tag)
    ensures GoodAll(a) && GoodAll(b) ==> GoodAll(a + b)
  {
    if a == [] {
      assert a + b == b;
    } else {
      assert (a + b)[1..] == a[1..] + b;
      ForestAppends(a[1..], b, tag);
    }
  }

  lemma {:induction false} ReplyHoldsBody(layers: seq<Layer>, body: seq<Xml>)
    requires GoodAll(body) && forall k :: 0 <= k < |layers| ==> ProperLayer(layers[k])
    ensures GoodAll(Reply(layers, body)) && OuterAll(Reply(layers, body), MEMBER) == OuterAll(body, MEMBER)
  {
    if layers != [] {
      var l, inner := layers[0], Reply(layers[1..], body);
      ReplyHoldsBody(layers[1..], body);
      var mid := [Node(l.tag, inner)];
      assert mid[1..] == [] && Good(mid[0]) && OuterIn(mid[0], MEMBER) == OuterAll(inner, MEMBER);
      assert GoodAll(mid) && OuterAll(mid, MEMBER) == OuterAll(inner, MEMBER);
      NoneOutside(l.before, MEMBER);
      NoneOutside(l.after, MEMBER);
      ForestAppends(l.before, mid, MEMBER);
      ForestAppends(l.before + mid, l.after, MEMBER);
    }
  }

  /**
   Parsing what was printed gives the groups, their capacities and their instances
   back, in order, whatever the reply wraps around the list and puts beside it.
   */
  lemma {:induction false} ParsePrint(layers: seq<Layer>, gs: seq<AsgGroup>)
    requires forall k :: 0 <= k < |layers| ==> ProperLayer(layers[k])
    requires forall k :: 0 <= k < |gs| ==> Printable(gs[k])
    ensures GroupsFrom(RenderAll(Reply(layers, PrintGroups(gs)))) == gs
  {
    hide Printable, GroupShape, OuterAll, GoodAll, Reply, RenderAll, ProperLayer;
    GroupsReadBack(gs);
    ReplyHoldsBody(layers, PrintGroups(gs));
    ParseReadsTree(Reply(layers, PrintGroups(gs)));
  }
}
