/** model/autoscaling.go: the HTTP handlers of the auto-scaling API. The
    collaborators they call (config file, alias lookup, registration,
    deregistration, deletion, refresh) are parameters: each is the result
    the collaborator returns for the arguments the handler passes it. */
module AutoScalingHandlers {
  import opened Wrappers
  import opened Text
  import opened HaLib
  import opened Db
  import AutoScaling

  /** An HTTP status code with a `{status, message}` body. */
  datatype StatusReply = StatusReply(code: int, status: string, message: string)

  /** An HTTP status code with a `{status, ip}` body. */
  datatype ResolveReply = ResolveReply(code: int, status: string, ip: string)

  /** What registering an instance yields: its alias and stored record. */
  datatype Registration = Registration(alias: string, instanceData: InstanceData)

  /** An HTTP status code with a `{status, message, alias, instance_data}` body. */
  datatype RegisterReply = RegisterReply(code: int, status: string, message: string,
                                         alias: string, instanceData: InstanceData)

  /** An HTTP status code with the `{autoscaling}` listing body. */
  datatype ListReply = ListReply(code: int, autoScaling: seq<AutoScalingData>)

  /** The body fields of a register request. */
  datatype RegisterRequest = RegisterRequest(autoScalingGroupName: string, instanceId: string, ip: string)

  /** The zero value of an instance record. */
  const NoInstance: InstanceData := InstanceData("", "", [])

  const NotInConfig: string := "can't find autoscaling group name in config"

  // ---------------------------------------------------------------------
  // Looking a group up in the configuration

  /** The first configuration entry naming the group, in file order. */
  function FirstMatch(configs: seq<AutoScalingConfig>, name: string): (r: Option<AutoScalingConfig>)
    ensures r.None? <==> forall i :: 0 <= i < |configs| ==> configs[i].autoScalingGroupName != name
    ensures r.Some? ==> exists i :: (0 <= i < |configs| && configs[i] == r.value &&
      r.value.autoScalingGroupName == name &&
      forall j :: 0 <= j < i ==> configs[j].autoScalingGroupName != name)
  {
    if configs == [] then None
    else if configs[0].autoScalingGroupName == name then Some(configs[0])
    else
      var r := FirstMatch(configs[1..], name);
      assert forall i :: 0 < i < |configs| ==> configs[i] == configs[1..][i - 1];
      if r.Some? then
        var i :| 0 <= i < |configs[1..]| && configs[1..][i] == r.value &&
          r.value.autoScalingGroupName == name &&
          forall j :: 0 <= j < i ==> configs[1..][j].autoScalingGroupName != name;
        assert configs[i + 1] == r.value;
        assert forall j :: 0 < j < i + 1 ==> configs[j] == configs[1..][j - 1];
        r
      else r
  }

  /** The search loop of Register and Delete: the group name and host
      prefix of the first matching entry, both "" when none matches. */
  method FindGroup(configs: seq<AutoScalingConfig>, name: string)
    returns (autoScalingGroupName: string, hostPrefix: string)
    ensures FirstMatch(configs, name).None? ==> autoScalingGroupName == "" && hostPrefix == ""
    ensures FirstMatch(configs, name).Some? ==>
      autoScalingGroupName == name && hostPrefix == FirstMatch(configs, name).value.hostPrefix
  {
    autoScalingGroupName, hostPrefix := "", "";
    var i := 0;
    while i < |configs|
      invariant 0 <= i <= |configs|
      invariant FirstMatch(configs, name) == FirstMatch(configs[i..], name)
      invariant autoScalingGroupName == "" && hostPrefix == ""
    {
      assert configs[i..][1..] == configs[i + 1..];
      var a := configs[i];
      if name == a.autoScalingGroupName {
        autoScalingGroupName, hostPrefix := a.autoScalingGroupName, a.hostPrefix;
        return;
      }
      i := i + 1;
    }
  }

  // ---------------------------------------------------------------------
  // Listing, alias resolution, config update

  /** AutoScaling: the slot listing, or 500 with an empty body when the
      listing fails. */
  method List(db: DB, config: Result<seq<AutoScalingConfig>>, openError: Option<string>)
    returns (reply: ListReply)
    requires db.Valid()
    ensures reply.code == StatusOK <==> config.Ok? && openError.None?
    ensures reply.code != StatusOK ==> reply == ListReply(StatusInternalServerError, [])
    ensures reply.code == StatusOK ==>
      |reply.autoScaling| == |config.value| &&
      forall i :: 0 <= i < |config.value| ==>
        reply.autoScaling[i].autoScalingGroupName == config.value[i].autoScalingGroupName &&
        AutoScaling.ListsSlots(reply.autoScaling[i].instanceData,
          AutoScaling.Registered(db.entries, config.value[i].hostPrefix))
  {
    var autoScaling := AutoScaling.ListAutoScaling(db, config, openError);
    if autoScaling.Err? {
      return ListReply(StatusInternalServerError, []);
    }
    reply := ListReply(StatusOK, autoScaling.value);
  }

  /** AutoScalingResolve: an alias is required; the IP is answered only
      when the lookup succeeds. */
  function Resolve(alias: string, aliasToIP: string -> Result<string>): (r: ResolveReply)
    ensures r.code == StatusOK <==> alias != "" && aliasToIP(alias).Ok?
    ensures r.code == StatusBadRequest <==> alias == ""
    ensures r.code == StatusOK ==> r.status == "OK" && r.ip == aliasToIP(alias).value
    ensures r.code != StatusOK ==>
      r.status == "error" && r.ip == "" && r.code in {StatusBadRequest, StatusInternalServerError}
  {
    if alias == "" then ResolveReply(StatusBadRequest, "error", "")
    else match aliasToIP(alias)
      case Err(_) => ResolveReply(StatusInternalServerError, "error", "")
      case Ok(ip) => ResolveReply(StatusOK, "OK", ip)
  }

  /** AutoScalingConfigUpdate: always 200; the status tells whether the
      configuration file was saved. */
  function ConfigUpdate(config: seq<AutoScalingConfig>, save: seq<AutoScalingConfig> -> Option<string>)
    : (r: StatusReply)
    ensures r.code == StatusOK && r.message == ""
    ensures r.status == "OK" <==> save(config).None?
    ensures r.status != "OK" ==> r.status == "NG"
  {
    StatusReply(StatusOK, if save(config).Some? then "NG" else "OK", "")
  }

  // ---------------------------------------------------------------------
  // Register, deregister, delete

  /** AutoScalingInstanceRegister. `register(group, hostPrefix, instanceId,
      ip)` is RegisterAutoScalingInstance. */
  method Register(request: RegisterRequest, config: Result<seq<AutoScalingConfig>>,
                  register: (string, string, string, string) -> Result<Registration>)
    returns (reply: RegisterReply)
    ensures var missing := request.autoScalingGroupName == "" || request.instanceId == "" || request.ip == "";
      && (missing <==> reply.code == StatusBadRequest)
      && (missing ==> reply == RegisterReply(StatusBadRequest, "error", "missing parameter", "", NoInstance))
      && (!missing && config.Err? ==>
            reply == RegisterReply(StatusInternalServerError, "error", config.error, "", NoInstance))
      && (!missing && config.Ok? && FirstMatch(config.value, request.autoScalingGroupName).None? ==>
            reply == RegisterReply(StatusNotFound, "error", NotInConfig, "", NoInstance))
      && (!missing && config.Ok? && FirstMatch(config.value, request.autoScalingGroupName).Some? ==>
            var hostPrefix := FirstMatch(config.value, request.autoScalingGroupName).value.hostPrefix;
            match register(request.autoScalingGroupName, hostPrefix, request.instanceId, request.ip)
            case Err(e) => reply == RegisterReply(StatusInternalServerError, "error", e, "", NoInstance)
            case Ok(g) => reply == RegisterReply(StatusOK, "OK", "", g.alias, g.instanceData))
    ensures reply.code == StatusOK <==> reply.status == "OK"
  {
    if request.autoScalingGroupName == "" || request.instanceId == "" || request.ip == "" {
      return RegisterReply(StatusBadRequest, "error", "missing parameter", "", NoInstance);
    }
    if config.Err? {
      return RegisterReply(StatusInternalServerError, "error", config.error, "", NoInstance);
    }
    var autoScalingGroupName, hostPrefix := FindGroup(config.value, request.autoScalingGroupName);
    if autoScalingGroupName == "" {
      return RegisterReply(StatusNotFound, "error", NotInConfig, "", NoInstance);
    }
    var registered := register(autoScalingGroupName, hostPrefix, request.instanceId, request.ip);
    if registered.Err? {
      return RegisterReply(StatusInternalServerError, "error", registered.error, "", NoInstance);
    }
    reply := RegisterReply(StatusOK, "OK", "", registered.value.alias, registered.value.instanceData);
  }

  /** AutoScalingInstanceDeregister: an instance ID is required; after that
      the answer is always 200 and the status carries the outcome. */
  function Deregister(instanceId: string, deregister: string -> Option<string>): (r: StatusReply)
    ensures r.code == StatusBadRequest <==> instanceId == ""
    ensures r.code != StatusBadRequest ==> r.code == StatusOK
    ensures instanceId == "" ==> r == StatusReply(StatusBadRequest, "NG", "instance_id required")
    ensures r.status == "OK" <==> instanceId != "" && deregister(instanceId).None?
    ensures instanceId != "" && deregister(instanceId).Some? ==>
      r.status == "NG" && r.message == deregister(instanceId).value
  {
    if instanceId == "" then StatusReply(StatusBadRequest, "NG", "instance_id required")
    else match deregister(instanceId)
      case Some(e) => StatusReply(StatusOK, "NG", e)
      case None => StatusReply(StatusOK, "OK", "")
  }

  /** AutoScalingDelete. `deleteGroup(name)` is DeleteAutoScaling. */
  method Delete(autoScalingGroupName: string, config: Result<seq<AutoScalingConfig>>,
                deleteGroup: string -> Option<string>)
    returns (reply: StatusReply)
    ensures autoScalingGroupName == "" ==>
      reply == StatusReply(StatusBadRequest, "error", "autoscaling_gorup_name required")
    ensures autoScalingGroupName != "" && config.Err? ==>
      reply == StatusReply(StatusInternalServerError, "error", config.error)
    ensures autoScalingGroupName != "" && config.Ok? && FirstMatch(config.value, autoScalingGroupName).None? ==>
      reply == StatusReply(StatusNotFound, "error", NotInConfig)
    ensures autoScalingGroupName != "" && config.Ok? && FirstMatch(config.value, autoScalingGroupName).Some? ==>
      match deleteGroup(autoScalingGroupName)
      case Some(e) => reply == StatusReply(StatusInternalServerError, "error", e)
      case None => reply == StatusReply(StatusOK, "OK", "")
    ensures reply.code == StatusOK <==>
      autoScalingGroupName != "" && config.Ok? && FirstMatch(config.value, autoScalingGroupName).Some? &&
      deleteGroup(autoScalingGroupName).None?
  {
    if autoScalingGroupName == "" {
      return StatusReply(StatusBadRequest, "error", "autoscaling_gorup_name required");
    }
    if config.Err? {
      return StatusReply(StatusInternalServerError, "error", config.error);
    }
    var deleteAutoScalingGroup, _ := FindGroup(config.value, autoScalingGroupName);
    if deleteAutoScalingGroup == "" {
      return StatusReply(StatusNotFound, "error", NotInConfig);
    }
    var err := deleteGroup(deleteAutoScalingGroup);
    if err.Some? {
      return StatusReply(StatusInternalServerError, "error", err.value);
    }
    reply := StatusReply(StatusOK, "OK", "");
  }

  // ---------------------------------------------------------------------
  // Refresh

  /** The groups AutoScalingRefresh refreshes, in configuration order: every
      entry naming the group (all entries when the name is ""), stopping
      after the first entry whose name equals the requested one. */
  function Selected(configs: seq<AutoScalingConfig>, name: string): seq<AutoScalingConfig>
  {
    if configs == [] then []
    else
      var a := configs[0];
      (if name == a.autoScalingGroupName || name == "" then [a] else []) +
      (if name == a.autoScalingGroupName then [] else Selected(configs[1..], name))
  }

  /** A named refresh selects exactly the first matching entry, or nothing. */
  lemma {:induction false} SelectedByName(configs: seq<AutoScalingConfig>, name: string)
    requires name != ""
    ensures Selected(configs, name) ==
      match FirstMatch(configs, name)
      case None => []
      case Some(c) => [c]
  {
    if configs != [] && configs[0].autoScalingGroupName != name {
      SelectedByName(configs[1..], name);
    }
  }

  /** An unnamed refresh selects a prefix of the configuration: all of it,
      or up to and including the first entry with an empty group name. */
  lemma {:induction false} SelectedAll(configs: seq<AutoScalingConfig>)
    ensures |Selected(configs, "")| <= |configs|
    ensures Selected(configs, "") == configs[..|Selected(configs, "")|]
    ensures forall i :: 0 <= i < |Selected(configs, "")| - 1 ==> configs[i].autoScalingGroupName != ""
    ensures |Selected(configs, "")| < |configs| ==>
      |Selected(configs, "")| > 0 && configs[|Selected(configs, "")| - 1].autoScalingGroupName == ""
    ensures (forall i :: 0 <= i < |configs| ==> configs[i].autoScalingGroupName != "") ==>
      Selected(configs, "") == configs
  {
    if configs != [] && configs[0].autoScalingGroupName != "" {
      var rest := configs[1..];
      SelectedAll(rest);
      assert forall i :: 0 < i < |configs| ==> configs[i] == rest[i - 1];
      assert Selected(configs, "") == [configs[0]] + Selected(rest, "");
    }
  }

  /** The error reported for one group. */
  function FailureMessage(autoScalingGroupName: string, err: string): string
  {
    "failed to refresh for " + autoScalingGroupName + ": " + err
  }

  /** The messages of the groups whose refresh fails, in order. */
  function Failures(groups: seq<AutoScalingConfig>, refresh: AutoScalingConfig -> Option<string>)
    : (errors: seq<string>)
    ensures |errors| <= |groups|
  {
    if groups == [] then []
    else
      var init := Failures(groups[..|groups| - 1], refresh);
      var a := groups[|groups| - 1];
      match refresh(a)
      case Some(e) => init + [FailureMessage(a.autoScalingGroupName, e)]
      case None => init
  }

  /** Every failing group is reported, only failing groups are, and there
      is no report exactly when every group succeeds. */
  lemma {:induction false} FailuresComplete(groups: seq<AutoScalingConfig>, refresh: AutoScalingConfig -> Option<string>)
    ensures forall m :: m in Failures(groups, refresh) <==>
      exists i :: 0 <= i < |groups| && refresh(groups[i]).Some? &&
        m == FailureMessage(groups[i].autoScalingGroupName, refresh(groups[i]).value)
    ensures Failures(groups, refresh) == [] <==> forall i :: 0 <= i < |groups| ==> refresh(groups[i]).None?
  {
    if groups != [] {
      var init := groups[..|groups| - 1];
      FailuresComplete(init, refresh);
      assert forall i :: 0 <= i < |init| ==> init[i] == groups[i];
      var last := |groups| - 1;
      if refresh(groups[last]).Some? {
        assert FailureMessage(groups[last].autoScalingGroupName, refresh(groups[last]).value)
          in Failures(groups, refresh);
      }
    }
  }

  /** AutoScalingRefresh. `refresh(group)` is RefreshAutoScalingInstances
      for that group's configuration entry; `ran` is the sequence of
      entries it is called for. */
  method Refresh(config: Result<seq<AutoScalingConfig>>, autoScalingGroupName: string,
                 refresh: AutoScalingConfig -> Option<string>)
    returns (reply: StatusReply, ran: seq<AutoScalingConfig>)
    ensures config.Err? ==>
      reply == StatusReply(StatusInternalServerError, "error", config.error) && ran == []
    ensures config.Ok? ==> ran == Selected(config.value, autoScalingGroupName)
    ensures config.Ok? && ran == [] ==> reply == StatusReply(StatusNotFound, "error", NotInConfig)
    ensures config.Ok? && ran != [] ==>
      var errors := Failures(ran, refresh);
      if errors == [] then reply == StatusReply(StatusOK, "OK", "")
      else reply == StatusReply(StatusInternalServerError, "error", Join(errors, ","))
  {
    ran := [];
    if config.Err? {
      return StatusReply(StatusInternalServerError, "error", config.error), ran;
    }
    var refreshAutoScalingGroups := SelectGroups(config.value, autoScalingGroupName);
    if |refreshAutoScalingGroups| == 0 {
      return StatusReply(StatusNotFound, "error", NotInConfig), ran;
    }
    var errors;
    errors, ran := RefreshGroups(refreshAutoScalingGroups, refresh);
    if |errors| > 0 {
      return StatusReply(StatusInternalServerError, "error", Join(errors, ",")), ran;
    }
    reply := StatusReply(StatusOK, "OK", "");
  }

  /** The selection loop of AutoScalingRefresh. */
  method SelectGroups(autoScalings: seq<AutoScalingConfig>, autoScalingGroupName: string)
    returns (refreshAutoScalingGroups: seq<AutoScalingConfig>)
    ensures refreshAutoScalingGroups == Selected(autoScalings, autoScalingGroupName)
  {
    refreshAutoScalingGroups := [];
    var i := 0;
    while i < |autoScalings|
      invariant 0 <= i <= |autoScalings|
      invariant refreshAutoScalingGroups + Selected(autoScalings[i..], autoScalingGroupName)
        == Selected(autoScalings, autoScalingGroupName)
    {
      var a := autoScalings[i];
      SelectStep(autoScalings, i, autoScalingGroupName, refreshAutoScalingGroups);
      if autoScalingGroupName == a.autoScalingGroupName || autoScalingGroupName == "" {
        refreshAutoScalingGroups := refreshAutoScalingGroups + [a];
      }
      if autoScalingGroupName == a.autoScalingGroupName {
        break;
      }
      i := i + 1;
    }
  }

  /** One entry of the selection loop. */
  lemma SelectStep(configs: seq<AutoScalingConfig>, i: nat, name: string, picked: seq<AutoScalingConfig>)
    requires i < |configs| && picked + Selected(configs[i..], name) == Selected(configs, name)
    ensures var a := configs[i];
      var next := if name == a.autoScalingGroupName || name == "" then picked + [a] else picked;
      && (name == a.autoScalingGroupName ==> next == Selected(configs, name))
      && (name != a.autoScalingGroupName ==> next + Selected(configs[i + 1..], name) == Selected(configs, name))
  {
    var a := configs[i];
    var rest := Selected(configs[i + 1..], name);
    SelectedFrom(configs, i, name);
    if name == a.autoScalingGroupName || name == "" {
      AppendAssoc(picked, a, rest);
      if name == a.autoScalingGroupName {
        assert [a] + [] == [a];
      }
    } else {
      assert [] + rest == rest;
    }
  }

  lemma AppendAssoc(before: seq<AutoScalingConfig>, a: AutoScalingConfig, rest: seq<AutoScalingConfig>)
    ensures (before + [a]) + rest == before + ([a] + rest)
  {
  }

  /** The selection from entry i on. */
  lemma SelectedFrom(configs: seq<AutoScalingConfig>, i: nat, name: string)
    requires i < |configs|
    ensures Selected(configs[i..], name) ==
      (if name == configs[i].autoScalingGroupName || name == "" then [configs[i]] else []) +
      (if name == configs[i].autoScalingGroupName then [] else Selected(configs[i + 1..], name))
  {
    assert configs[i..][0] == configs[i];
    assert configs[i..][1..] == configs[i + 1..];
  }

  /** The refresh loop of AutoScalingRefresh: every group is refreshed, in
      order, and the failures are collected. */
  method RefreshGroups(groups: seq<AutoScalingConfig>, refresh: AutoScalingConfig -> Option<string>)
    returns (errors: seq<string>, ran: seq<AutoScalingConfig>)
    ensures ran == groups && errors == Failures(groups, refresh)
  {
    errors, ran := [], [];
    for j := 0 to |groups|
      invariant ran == groups[..j]
      invariant errors == Failures(groups[..j], refresh)
    {
      var a := groups[j];
      assert groups[..j + 1][..j] == groups[..j];
      var err := refresh(a);
      ran := ran + [a];
      if err.Some? {
        errors := errors + [FailureMessage(a.autoScalingGroupName, err.value)];
      }
    }
    assert groups[..|groups|] == groups;
  }

  /** Refresh answers 200 exactly when the configuration is read, some group
      is selected and every selected group refreshes. */
  lemma RefreshSucceeds(config: Result<seq<AutoScalingConfig>>, autoScalingGroupName: string,
                        refresh: AutoScalingConfig -> Option<string>)
    requires config.Ok?
    requires Selected(config.value, autoScalingGroupName) != []
    ensures var groups := Selected(config.value, autoScalingGroupName);
      Failures(groups, refresh) == [] <==> forall i :: 0 <= i < |groups| ==> refresh(groups[i]).None?
  {
    FailuresComplete(Selected(config.value, autoScalingGroupName), refresh);
  }
}
