/** model/monitor.go: running a Nagios-style plugin for /monitor, and the
    rate limit on machine-state snapshots that a failing check asks for.

    The file system and the command runner are parameters: `join` is
    path.Join, `exists` says whether os.Stat succeeds, and `run` is
    util.ExecCommand's outcome for a command and its option. */
module Monitor {
  import opened Wrappers
  import opened Text
  import opened HaLib

  /** halib.MonitorRequest without its API key. */
  datatype MonitorRequest = MonitorRequest(pluginName: string, pluginOption: string)

  /** What util.ExecCommand returns: exit status, stdout, stderr, error. */
  datatype ExecResult = ExecResult(exitStatus: int, stdout: string, stderr: string, err: Option<string>)

  /** Monitor's answer: the HTTP status, the JSON body, and whether a
      save-state signal was sent. */
  datatype MonitorReply = MonitorReply(code: int, response: MonitorResponse, saveState: bool)

  // ---------------------------------------------------------------------
  // execPluginCommand

  /** The plugin chosen among the joined candidates, from index `from`: the
      first that exists, or the last candidate when none does. */
  function ChosenFrom(bases: seq<string>, pluginName: string, join: (string, string) -> string,
                      exists_: string -> bool, from: nat): (plugin: string)
    requires from < |bases|
    ensures exists i :: from <= i < |bases| && plugin == join(bases[i], pluginName)
    decreases |bases| - from
  {
    if exists_(join(bases[from], pluginName)) || from == |bases| - 1 then join(bases[from], pluginName)
    else ChosenFrom(bases, pluginName, join, exists_, from + 1)
  }

  /** The choice over the whole list: the first existing candidate when
      there is one, otherwise the last candidate. */
  lemma {:induction false} ChosenFromCases(bases: seq<string>, pluginName: string, join: (string, string) -> string,
                                           exists_: string -> bool, from: nat)
    requires from < |bases|
    ensures var plugin := ChosenFrom(bases, pluginName, join, exists_, from);
      && ((exists i :: from <= i < |bases| && exists_(join(bases[i], pluginName))) ==>
            exists i :: (from <= i < |bases| && exists_(join(bases[i], pluginName)) &&
              plugin == join(bases[i], pluginName) &&
              forall j :: from <= j < i ==> !exists_(join(bases[j], pluginName))))
      && ((forall i :: from <= i < |bases| ==> !exists_(join(bases[i], pluginName))) ==>
            plugin == join(bases[|bases| - 1], pluginName))
    decreases |bases| - from
  {
    if from < |bases| - 1 && !exists_(join(bases[from], pluginName)) {
      ChosenFromCases(bases, pluginName, join, exists_, from + 1);
    }
  }

  /** The out text of execPluginCommand: empty stdout is reported with the
      stderr, non-empty stdout gets the stderr appended when there is one. */
  function Message(stdout: string, stderr: string): (out: string)
    ensures out == stdout <==> stdout != "" && stderr == ""
    ensures stdout != "" ==> HasPrefix(out, stdout)
    ensures stdout == "" || stderr != "" ==> |out| >= |stderr| + 7 && out[|out| - |stderr| - 7..] == "stderr=" + stderr
  {
    if stdout == "" then "stdout=, stderr=" + stderr
    else if stderr != "" then stdout + ", stderr=" + stderr
    else stdout
  }

  /** execPluginCommand: choose the plugin among the comma-separated base
      paths, run it with the option and shape its output. */
  method ExecPluginCommand(pluginPaths: string, pluginName: string, pluginOption: string,
                           join: (string, string) -> string, exists_: string -> bool,
                           run: (string, string) -> ExecResult)
    returns (plugin: string, ret: int, message: string, err: Option<string>)
    ensures plugin == ChosenFrom(Split(pluginPaths, ','), pluginName, join, exists_, 0)
    ensures var result := run(plugin, pluginOption);
      ret == result.exitStatus && message == Message(result.stdout, result.stderr) && err == result.err
  {
    var bases := Split(pluginPaths, ',');
    plugin := "";
    var i := 0;
    while i < |bases|
      invariant 0 <= i <= |bases|
      invariant i == 0 ==> plugin == ""
      invariant 0 < i < |bases| ==> ChosenFrom(bases, pluginName, join, exists_, 0) == ChosenFrom(bases, pluginName, join, exists_, i)
      invariant i == |bases| ==> plugin == ChosenFrom(bases, pluginName, join, exists_, 0)
    {
      plugin := join(bases[i], pluginName);
      if exists_(plugin) {
        break;
      }
      i := i + 1;
    }
    assert i < |bases| ==> plugin == ChosenFrom(bases, pluginName, join, exists_, 0);
    var result := run(plugin, pluginOption);
    ret, message, err := result.exitStatus, Message(result.stdout, result.stderr), result.err;
  }

  // ---------------------------------------------------------------------
  // Monitor

  /** The reply for an execPluginCommand outcome: an error is 500 with
      return value 2 and its text; otherwise 200 with the exit status and
      message, and a save-state signal when the status is not 0. */
  function Reply(ret: int, message: string, err: Option<string>): (r: MonitorReply)
    ensures err.Some? ==> r == MonitorReply(StatusInternalServerError, MonitorResponse(MonitorError, err.value), false)
    ensures err.None? ==> r.code == StatusOK && r.response == MonitorResponse(ret, message)
    ensures r.saveState <==> err.None? && ret != 0
  {
    match err
    case Some(e) => MonitorReply(StatusInternalServerError, MonitorResponse(MonitorError, e), false)
    case None => MonitorReply(StatusOK, MonitorResponse(ret, message), ret != 0)
  }

  /** Monitor: run the requested plugin and answer with its outcome. */
  method Monitor(request: MonitorRequest, pluginPaths: string,
                 join: (string, string) -> string, exists_: string -> bool,
                 run: (string, string) -> ExecResult)
    returns (reply: MonitorReply)
    ensures var plugin := ChosenFrom(Split(pluginPaths, ','), request.pluginName, join, exists_, 0);
      var result := run(plugin, request.pluginOption);
      && (result.err.Some? ==>
            reply.code == StatusInternalServerError &&
            reply.response == MonitorResponse(MonitorError, result.err.value) && !reply.saveState)
      && (result.err.None? ==>
            reply.code == StatusOK &&
            reply.response == MonitorResponse(result.exitStatus, Message(result.stdout, result.stderr)))
      && (reply.saveState <==> result.err.None? && result.exitStatus != 0)
  {
    var plugin, ret, message, err := ExecPluginCommand(pluginPaths, request.pluginName, request.pluginOption,
                                                       join, exists_, run);
    reply := Reply(ret, message, err);
  }

  // ---------------------------------------------------------------------
  // isPermitSaveState

  /** One call of isPermitSaveState on the state `lastRunned`: the clock is
      read once for the comparison (`checkedAt`) and once for the new stamp
      (`stampedAt`). Returns the permit and the new lastRunned. */
  function PermitStep(interval: int, lastRunned: int, checkedAt: int, stampedAt: int): (r: (bool, int))
    ensures r.0 <==> interval >= 0 && checkedAt - lastRunned >= interval
    ensures r.1 == if r.0 then stampedAt else lastRunned
  {
    if interval < 0 then (false, lastRunned)
    else if checkedAt - lastRunned < interval then (false, lastRunned)
    else (true, stampedAt)
  }

  /** The package state behind isPermitSaveState. */
  class SaveStatePermit {
    /** ErrorLogIntervalSeconds: the least gap between two snapshots; a
        negative value disables them. */
    var errorLogIntervalSeconds: int
    var lastRunned: int

    constructor (errorLogIntervalSeconds: int)
      ensures this.errorLogIntervalSeconds == errorLogIntervalSeconds && lastRunned == 0
    {
      this.errorLogIntervalSeconds := errorLogIntervalSeconds;
      lastRunned := 0;
    }

    method IsPermitSaveState(checkedAt: int, stampedAt: int) returns (permit: bool)
      modifies this
      ensures errorLogIntervalSeconds == old(errorLogIntervalSeconds)
      ensures (permit, lastRunned) == PermitStep(errorLogIntervalSeconds, old(lastRunned), checkedAt, stampedAt)
    {
      if errorLogIntervalSeconds < 0 {
        return false;
      }
      var duration := checkedAt - lastRunned;
      if duration < errorLogIntervalSeconds {
        return false;
      }
      lastRunned := stampedAt;
      return true;
    }
  }

  /** The state after a sequence of calls, each a (checkedAt, stampedAt)
      pair of clock readings. */
  function Replay(interval: int, lastRunned: int, calls: seq<(int, int)>): int
  {
    if calls == [] then lastRunned
    else
      var last := calls[|calls| - 1];
      PermitStep(interval, Replay(interval, lastRunned, calls[..|calls| - 1]), last.0, last.1).1
  }

  /** Whether call `i` of a sequence is granted. */
  predicate Granted(interval: int, lastRunned: int, calls: seq<(int, int)>, i: nat)
    requires i < |calls|
  {
    PermitStep(interval, Replay(interval, lastRunned, calls[..i]), calls[i].0, calls[i].1).0
  }

  /** Between two grants the state holds the stamp of the first. */
  lemma {:induction false} ReplayAfterGrant(interval: int, lastRunned: int, calls: seq<(int, int)>, i: nat, k: nat)
    requires i < k <= |calls| && Granted(interval, lastRunned, calls, i)
    requires forall j :: i < j < k ==> !Granted(interval, lastRunned, calls, j)
    ensures Replay(interval, lastRunned, calls[..k]) == calls[i].1
    decreases k
  {
    assert calls[..k][..k - 1] == calls[..k - 1];
    assert calls[..k][k - 1] == calls[k - 1];
    if k - 1 > i {
      assert !Granted(interval, lastRunned, calls, k - 1);
      ReplayAfterGrant(interval, lastRunned, calls, i, k - 1);
    }
  }

  /** Two consecutive granted calls are at least the interval apart: the
      later check is at least `interval` seconds after the earlier stamp.
      With a negative interval nothing is ever granted. */
  lemma GrantsSpaced(interval: int, lastRunned: int, calls: seq<(int, int)>, i: nat, k: nat)
    requires i < k < |calls|
    requires Granted(interval, lastRunned, calls, i) && Granted(interval, lastRunned, calls, k)
    requires forall j :: i < j < k ==> !Granted(interval, lastRunned, calls, j)
    ensures interval >= 0 && calls[k].0 - calls[i].1 >= interval
  {
    ReplayAfterGrant(interval, lastRunned, calls, i, k);
  }
}
