/** autoscaling/aws.go: the live-instance inventory of an auto-scaling
    group. The two AWS SDK calls are the fields of an `AwsClient`; the
    agent only filters and flattens what they return. */
module Aws {
  import opened Wrappers

  /** A member of an auto-scaling group as DescribeAutoScalingGroups lists it. */
  datatype AsgInstance = AsgInstance(instanceId: string, lifecycleState: string)

  /** A described group; `None` is a nil instance list. */
  datatype AsgGroup = AsgGroup(instances: Option<seq<AsgInstance>>)

  /** An EC2 instance as DescribeInstances returns it. */
  datatype Ec2Instance = Ec2Instance(instanceId: string, privateIpAddress: string)

  /** EC2 never returns a reservation without instances. */
  type Reservation = r: seq<Ec2Instance> | |r| > 0 witness [Ec2Instance("", "")]

  /** The remote calls: groups by name, then reservations by instance IDs. */
  datatype AwsClient = AwsClient(
    describeAutoScalingGroups: string -> Result<seq<AsgGroup>>,
    describeInstances: seq<string> -> Result<seq<Reservation>>)

  const InService: string := "InService"

  /** The IDs of the in-service members, in group order. */
  function InServiceIds(xs: seq<AsgInstance>): (ids: seq<string>)
    ensures |ids| <= |xs|
  {
    if xs == [] then []
    else
      var init := InServiceIds(xs[..|xs| - 1]);
      if xs[|xs| - 1].lifecycleState == InService then init + [xs[|xs| - 1].instanceId] else init
  }

  /** The first instance of each reservation, in reservation order. */
  function FirstInstances(rs: seq<Reservation>): (r: seq<Ec2Instance>)
    ensures |r| == |rs|
    ensures forall i :: 0 <= i < |rs| ==> r[i] == rs[i][0]
  {
    if rs == [] then [] else FirstInstances(rs[..|rs| - 1]) + [rs[|rs| - 1][0]]
  }

  /** An ID is passed on exactly when some in-service member carries it. */
  lemma {:induction false} InServiceIdsMembers(xs: seq<AsgInstance>)
    ensures forall id :: id in InServiceIds(xs) <==>
      exists i :: 0 <= i < |xs| && xs[i].lifecycleState == InService && xs[i].instanceId == id
  {
    if xs != [] {
      var init := xs[..|xs| - 1];
      InServiceIdsMembers(init);
      forall id | (exists i :: 0 <= i < |xs| && xs[i].lifecycleState == InService && xs[i].instanceId == id)
        ensures id in InServiceIds(xs)
      {
        var i :| 0 <= i < |xs| && xs[i].lifecycleState == InService && xs[i].instanceId == id;
        if i < |xs| - 1 {
          assert init[i] == xs[i];
        }
      }
    }
  }

  /** The in-service filter keeps group order: it is a subsequence. */
  lemma {:induction false} InServiceIdsAllInService(xs: seq<AsgInstance>)
    requires forall i :: 0 <= i < |xs| ==> xs[i].lifecycleState == InService
    ensures |InServiceIds(xs)| == |xs|
    ensures forall i :: 0 <= i < |xs| ==> InServiceIds(xs)[i] == xs[i].instanceId
  {
    if xs != [] {
      InServiceIdsAllInService(xs[..|xs| - 1]);
    }
  }

  /** The instance IDs describeAutoScalingInstances sends to DescribeInstances,
      or None when it makes no such call. */
  function Ec2Request(groups: Result<seq<AsgGroup>>): Option<seq<string>>
  {
    if groups.Err? || |groups.value| < 1 || groups.value[0].instances.None? then None
    else
      var ids := InServiceIds(groups.value[0].instances.value);
      if ids == [] then None else Some(ids)
  }

  /** The inventory describeAutoScalingInstances returns. */
  function Inventory(client: AwsClient, autoScalingGroupName: string): Result<seq<Ec2Instance>>
  {
    var groups := client.describeAutoScalingGroups(autoScalingGroupName);
    if groups.Err? then Err(groups.error)
    else match Ec2Request(groups)
      case None => Ok([])
      case Some(ids) =>
        match client.describeInstances(ids)
        case Err(e) => Err(e)
        case Ok(rs) => Ok(FirstInstances(rs))
  }

  /** Only in-service members are described, and every in-service member is. */
  lemma Ec2RequestInService(groups: Result<seq<AsgGroup>>)
    requires Ec2Request(groups).Some?
    ensures groups.Ok? && |groups.value| >= 1 && groups.value[0].instances.Some?
    ensures forall id :: id in Ec2Request(groups).value <==>
      exists i :: 0 <= i < |groups.value[0].instances.value| &&
        groups.value[0].instances.value[i].lifecycleState == InService &&
        groups.value[0].instances.value[i].instanceId == id
  {
    InServiceIdsMembers(groups.value[0].instances.value);
  }

  /** describeAutoScalingInstances. Returns the inventory and the instance IDs
      sent to DescribeInstances (`None` when that call is not made). */
  method DescribeAutoScalingInstances(client: AwsClient, autoScalingGroupName: string)
    returns (r: Result<seq<Ec2Instance>>, ec2Request: Option<seq<string>>)
    ensures r == Inventory(client, autoScalingGroupName)
    ensures ec2Request == Ec2Request(client.describeAutoScalingGroups(autoScalingGroupName))
    ensures client.describeAutoScalingGroups(autoScalingGroupName).Err? ==>
      r == Err(client.describeAutoScalingGroups(autoScalingGroupName).error) && ec2Request == None
    ensures client.describeAutoScalingGroups(autoScalingGroupName).Ok? ==>
      var groups := client.describeAutoScalingGroups(autoScalingGroupName).value;
      if |groups| < 1 || groups[0].instances.None? then
        r == Ok([]) && ec2Request == None
      else
        var ids := InServiceIds(groups[0].instances.value);
        if ids == [] then r == Ok([]) && ec2Request == None
        else
          ec2Request == Some(ids) &&
          match client.describeInstances(ids)
          case Err(e) => r == Err(e)
          case Ok(rs) => r == Ok(FirstInstances(rs))
  {
    var result := client.describeAutoScalingGroups(autoScalingGroupName);
    if result.Err? {
      return Err(result.error), None;
    }
    var groups := result.value;
    if |groups| < 1 || groups[0].instances.None? {
      return Ok([]), None;
    }
    var members := groups[0].instances.value;
    var instanceIds: seq<string> := [];
    for i := 0 to |members|
      invariant instanceIds == InServiceIds(members[..i])
    {
      assert members[..i + 1][..i] == members[..i];
      if members[i].lifecycleState == InService {
        instanceIds := instanceIds + [members[i].instanceId];
      }
    }
    assert members[..|members|] == members;
    if |instanceIds| < 1 {
      return Ok([]), None;
    }
    ec2Request := Some(instanceIds);
    var result2 := client.describeInstances(instanceIds);
    if result2.Err? {
      return Err(result2.error), ec2Request;
    }
    var reservations := result2.value;
    var autoScalingInstances: seq<Ec2Instance> := [];
    if |reservations| < 1 {
      return Ok(autoScalingInstances), ec2Request;
    }
    for i := 0 to |reservations|
      invariant autoScalingInstances == FirstInstances(reservations[..i])
    {
      assert reservations[..i + 1][..i] == reservations[..i];
      autoScalingInstances := autoScalingInstances + [reservations[i][0]];
    }
    assert reservations[..|reservations|] == reservations;
    r := Ok(autoScalingInstances);
  }
}
