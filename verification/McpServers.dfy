/** The servers of the extension: one mutable handle for each repository, shown to take the steps of ServerHolds. */
module McpServers {
  import opened Options
  import H = ServerHolds

  class ServerHandle {
    var phase: H.Phase
    var refCount: nat
    var toolHold: bool
    ghost const repoRoot: string
    ghost var account: H.Handle

    constructor (ghost repoRoot: string, ghost call: bool)
      ensures Valid() && account == H.Launched(call) && this.repoRoot == repoRoot
    {
      phase, refCount, toolHold := H.StartingUp, 1, false;
      this.repoRoot, account := repoRoot, H.Launched(call);
    }

    ghost predicate Valid()
      reads this
    {
      account.phase == phase && account.refCount == refCount && account.toolHold == toolHold
    }

    /** Gives one reference back, unless forced; tells whether the server may end. */
    method Release(force: bool) returns (last: bool)
      requires Valid()
      modifies this`refCount, this`account
      ensures Valid() && H.StopOn(old(account), force, true) == if last then None else Some(account)
      ensures H.StopOn(old(account), force, false) == Some(account.(killed := last || account.killed))
    {
      if !force {
        account := account.(stops := account.stops + if refCount > 0 then 1 else 0);
        refCount := H.Max(0, refCount - 1);
        account := account.(refCount := refCount);
        if refCount > 0 {
          return false;
        }
      }
      return true;
    }
  }

  class Servers {
    var servers: map<string, ServerHandle>

    ghost predicate Valid()
      reads this, servers.Values
    {
      forall r :: r in servers ==> servers[r].repoRoot == r && servers[r].Valid()
    }

    /** The account of one repository's server. */
    ghost function Of(repoRoot: string): Option<H.Handle>
      reads this, servers.Values
    {
      if repoRoot in servers then Some(servers[repoRoot].account) else None
    }

    twostate predicate OnlyChanges(repoRoot: string)
      reads this, servers.Values
    {
      forall r :: r != repoRoot ==> Of(r) == old(Of(r))
    }

    constructor ()
      ensures Valid() && forall r :: Of(r) == None
    {
      servers := map[];
    }

    /** A start: joins the server that is there, or launches one. */
    method StartMcpServer(repoRoot: string, ghost call: bool) returns (launched: bool)
      requires Valid()
      modifies this, servers.Values
      ensures Valid() && OnlyChanges(repoRoot)
      ensures Of(repoRoot) == H.Step(old(Of(repoRoot)), H.Start(call)) && (launched <==> old(Of(repoRoot)).None?)
    {
      if repoRoot in servers {
        var handle := servers[repoRoot];
        handle.refCount := handle.refCount + 1;
        handle.account := H.StartOn(Some(handle.account), call).value;
        return false;
      }
      LaunchOnPort(repoRoot, call);
      return true;
    }

    /** A launch, for a start or after a failed attempt; it takes the place of whatever is there. */
    method LaunchOnPort(repoRoot: string, ghost call: bool)
      requires Valid()
      modifies this
      ensures Valid() && OnlyChanges(repoRoot) && Of(repoRoot) == Some(H.Launched(call))
    {
      var handle := new ServerHandle(repoRoot, call);
      servers := servers[repoRoot := handle];
    }

    /** The port accepts connections; only the handle still in place hears of it. */
    method OnBound(repoRoot: string, handle: ServerHandle)
      requires Valid()
      modifies this, servers.Values
      ensures Valid() && OnlyChanges(repoRoot)
      ensures Of(repoRoot) ==
        if repoRoot in old(servers) && old(servers[repoRoot]) == handle then H.Step(old(Of(repoRoot)), H.Ready)
        else old(Of(repoRoot))
    {
      if repoRoot in servers && servers[repoRoot] == handle {
        handle.phase := H.Running;
        handle.account := handle.account.(phase := H.Running);
      }
    }

    /** The process exits; a handle that has been replaced is none of its business. */
    method OnExit(repoRoot: string, handle: ServerHandle)
      requires Valid()
      modifies this
      ensures Valid() && OnlyChanges(repoRoot)
      ensures Of(repoRoot) ==
        if repoRoot in old(servers) && old(servers[repoRoot]) == handle then H.Step(old(Of(repoRoot)), H.Exit)
        else old(Of(repoRoot))
    {
      if repoRoot in servers && servers[repoRoot] == handle {
        servers := servers - {repoRoot};
      }
    }

    /** A start whose last attempt has failed leaves nothing behind. */
    method GiveUp(repoRoot: string, ghost timedOut: bool)
      requires Valid()
      modifies this
      ensures Valid() && OnlyChanges(repoRoot) && Of(repoRoot) == H.Step(old(Of(repoRoot)), H.GiveUp(timedOut))
    {
      servers := servers - {repoRoot};
    }

    method BoundToolHold(repoRoot: string)
      requires Valid()
      modifies servers.Values
      ensures Valid() && OnlyChanges(repoRoot) && Of(repoRoot) == H.Step(old(Of(repoRoot)), H.Bound)
    {
      if repoRoot !in servers {
        return;
      }
      var handle := servers[repoRoot];
      if handle.toolHold {
        handle.refCount := H.Max(1, handle.refCount - 1);
      } else {
        handle.toolHold := true;
      }
      handle.account := H.BoundToolHold(handle.account);
    }

    /** Releases a reference, or with `force` all of them; `mismatch` says that the process is no longer ours. */
    method StopMcpServer(repoRoot: string, force: bool, mismatch: bool) returns (killed: bool)
      requires Valid()
      modifies this, servers.Values
      ensures Valid() && OnlyChanges(repoRoot)
      ensures Of(repoRoot) == H.Step(old(Of(repoRoot)), H.Stop(force, mismatch))
      ensures killed ==> Of(repoRoot).Some? && Of(repoRoot).value.killed
    {
      if repoRoot !in servers {
        return false;
      }
      var handle := servers[repoRoot];
      var last := handle.Release(force);
      if !last {
        return false;
      }
      if mismatch {
        servers := servers - {repoRoot};
        return false;
      }
      handle.account := handle.account.(killed := true);
      return true;
    }
  }
}
