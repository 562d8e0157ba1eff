/**
 Spawning a sandbox through the gateway: create a credential provider, create the sandbox
 with the provider attached, then start and expose its server. A spawn that fails gives
 back what it created, in an order the gateway accepts: it refuses to delete a provider
 that is still attached.
 */
module Spawn {
  import opened Prelude
  import opened Json

  /** The step of a spawn whose gateway call returns an error, or whose check fails. */
  datatype Point =
    | NoCredential | NoVendor | Profile | CreateProvider | SetRoute
    | CreateSandbox | WaitReady | InjectSecrets | Materialize | StartServer | Expose | HttpReady

  /** A spawn request: whether it names a credential, the skills it allows, whether it is an
      advisory (read-only) spawn, and the two environment variables the network policy is
      derived from, "" when unset. */
  datatype Request = Request(
    agent: string, credential: bool, skills: seq<string>, secrets: bool, readOnly: bool,
    providerUrl: string, mcpServers: string)

  /** What json.loads does with a text: a value, the decode error that the policy builder
      catches, or an error that it does not (a numeral too long, nesting too deep). */
  datatype Decoded = Value(value: Json) | Malformed | Escapes

  /** Reading texts: JSON, and whether taking a url apart (its host and, if it has one, its
      port) raises. */
  datatype Reader = Reader(loads: string -> Decoded, urlRaises: string -> bool)

  /** What the gateway does: where it fails, the names it hands out, and which of the
      cleanup calls work. */
  datatype Gateway = Gateway(
    failAt: Option<Point>,
    provider: string, sandbox: string, sandboxId: string,
    endpoint: string, host: string,  // what exposing the service yields
    detachWorks: bool, deleteSandboxWorks: bool, deleteProviderWorks: bool)

  predicate ValidSkill(name: string) {
    name != "" && '/' !in name && name != "." && name != ".."
  }

  /** The baseline filesystem policy checks the skills; the advisory one does not look. */
  predicate FilesystemPolicyBuilds(q: Request) {
    q.readOnly || forall i :: 0 <= i < |q.skills| ==> ValidSkill(q.skills[i])
  }

  /** Python's truth value. */
  predicate Truthy(v: Json) {
    match v
    case Null => false
    case Bool(b) => b
    case Num(n) => n != 0
    case Str(s) => s != ""
    case Arr(items) => items != []
    case Obj(fields) => fields != map[]
  }

  lemma FalsyValues(v: Json)
    ensures !Truthy(v) <==> v in {Null, Bool(false), Num(0), Str(""), Arr([]), Obj(map[])}
  {
  }

  /** A server entry is read without an error that the policy builder does not catch: it is
      a dictionary, and its url, if it has one, is a text that can be taken apart. */
  predicate ServerReads(rd: Reader, server: Json) {
    && server.Obj?
    && ("url" in server.fields && Truthy(server.fields["url"]) ==>
          server.fields["url"].Str? && !rd.urlRaises(server.fields["url"].s))
  }

  /** Going through the decoded list of servers: what cannot be gone through at all is caught,
      and going through a text or a dictionary yields texts, which are no servers. */
  predicate ServersRead(rd: Reader, servers: Json) {
    match servers
    case Str(s) => s == ""
    case Obj(fields) => fields == map[]
    case Arr(items) => forall i :: 0 <= i < |items| ==> ServerReads(rd, items[i])
    case _ => true
  }

  predicate NetworkPolicyBuilds(rd: Reader, q: Request) {
    && (q.providerUrl != "" ==> !rd.urlRaises(q.providerUrl))
    && (q.mcpServers != "" ==>
          match rd.loads(q.mcpServers)
          case Value(servers) => ServersRead(rd, servers)
          case Malformed => true
          case Escapes => false)
  }

  /** Both policies of the sandbox are built. */
  predicate PolicyBuilds(rd: Reader, q: Request) {
    NetworkPolicyBuilds(rd, q) && FilesystemPolicyBuilds(q)
  }

  /** The deletions go through; a provider need not be detached first. */
  predicate CleanupWorks(g: Gateway) {
    g.deleteSandboxWorks && g.deleteProviderWorks
  }

  /** The steps that set up the credential provider. */
  predicate AtCredential(p: Point) {
    p in {NoCredential, NoVendor, Profile, CreateProvider, SetRoute}
  }

  /** The step is reached only if the request calls for it. */
  predicate Applies(q: Request, p: Point) {
    match p
    case NoCredential => q.credential
    case NoVendor => q.credential
    case Profile => q.credential
    case CreateProvider => q.credential
    case SetRoute => q.credential
    case InjectSecrets => q.secrets
    case Materialize => q.skills != [] && !q.readOnly
    case _ => true
  }

  /** The spawn goes through. */
  predicate Succeeds(rd: Reader, q: Request, g: Gateway) {
    (g.failAt.Some? ==> !Applies(q, g.failAt.value)) && PolicyBuilds(rd, q)
  }

  /** A credential was given to the gateway, and then a policy that cannot be built stops the
      spawn outside the region that cleans up. */
  predicate Strands(rd: Reader, q: Request, g: Gateway) {
    && q.credential && !PolicyBuilds(rd, q)
    && (g.failAt.Some? ==> !AtCredential(g.failAt.value))
  }

  /** One server whose url cannot be taken apart is enough, on an advisory spawn too. */
  lemma BadUrlStrands(rd: Reader, q: Request, g: Gateway, items: seq<Json>, i: nat, url: string)
    requires q.credential && g.failAt.None? && q.mcpServers != ""
    requires rd.loads(q.mcpServers) == Value(Arr(items)) && i < |items|
    requires items[i] == Obj(map["url" := Str(url)]) && url != "" && rd.urlRaises(url)
    ensures Strands(rd, q, g)
  {
    assert !ServerReads(rd, items[i]);
  }

  lemma AddRemove<K, V>(m: map<K, V>, k: K, v: V)
    ensures m[k := v] - {k} == m - {k}
    ensures k !in m ==> m - {k} == m
  {
  }

  class OpenShellSpawner {
    // the gateway
    var sandboxes: set<string>
    var providers: set<string>
    var attached: set<(string, string)>
    // what this process tracks
    var sandboxNames: map<string, string>
    var sandboxIds: map<string, string>
    var providerIds: map<string, string>
    var virtualHosts: map<string, string>

    constructor ()
      ensures sandboxes == {} && providers == {} && attached == {}
      ensures sandboxNames == map[] && sandboxIds == map[] && providerIds == map[] && virtualHosts == map[]
    {
      sandboxes, providers, attached := {}, {}, {};
      sandboxNames, sandboxIds, providerIds, virtualHosts := map[], map[], map[], map[];
    }

    /** Attachments are between a sandbox and a provider that exist. */
    predicate Consistent()
      reads this
    {
      forall x :: x in attached ==> x.0 in sandboxes && x.1 in providers
    }

    method Detach(sandbox: string, provider: string, works: bool)
      modifies this`attached
      ensures attached == if works then old(attached) - {(sandbox, provider)} else old(attached)
    {
      if works {
        attached := attached - {(sandbox, provider)};
      }
    }

    /** A deleted sandbox takes its attachments with it. */
    method DeleteSandbox(sandbox: string, works: bool)
      modifies this`sandboxes, this`attached
      ensures if works then
                && sandboxes == old(sandboxes) - {sandbox}
                && attached == set x | x in old(attached) && x.0 != sandbox
              else sandboxes == old(sandboxes) && attached == old(attached)
    {
      if works {
        sandboxes := sandboxes - {sandbox};
        attached := set x | x in attached && x.0 != sandbox;
      }
    }

    /** The gateway refuses to delete a provider that is attached to any sandbox. */
    method DeleteProvider(provider: string, works: bool) returns (ok: bool)
      modifies this`providers
      ensures ok <==> works && forall x :: x in attached ==> x.1 != provider
      ensures providers == if ok then old(providers) - {provider} else old(providers)
    {
      ok := works && forall x :: x in attached ==> x.1 != provider;
      if ok {
        providers := providers - {provider};
      }
    }

    /** _cleanup_sandbox: detach the tracked provider, delete the sandbox, forget both. */
    method CleanupSandbox(agent: string, sandbox: string, g: Gateway)
      modifies this`sandboxes, this`attached, this`sandboxNames, this`sandboxIds, this`providerIds, this`virtualHosts
      ensures sandboxNames == old(sandboxNames) - {agent} && sandboxIds == old(sandboxIds) - {agent}
      ensures providerIds == old(providerIds) - {agent} && virtualHosts == old(virtualHosts) - {sandbox}
      ensures sandboxes == if g.deleteSandboxWorks then old(sandboxes) - {sandbox} else old(sandboxes)
      ensures g.deleteSandboxWorks ==> attached == set x | x in old(attached) && x.0 != sandbox
      ensures !g.deleteSandboxWorks ==>
                attached == if g.detachWorks && agent in old(providerIds)
                            then old(attached) - {(sandbox, old(providerIds)[agent])} else old(attached)
    {
      if agent in providerIds {
        var provider := providerIds[agent];
        providerIds := providerIds - {agent};
        Detach(sandbox, provider, g.detachWorks);
      }
      DeleteSandbox(sandbox, g.deleteSandboxWorks);
      sandboxNames := sandboxNames - {agent};
      sandboxIds := sandboxIds - {agent};
      virtualHosts := virtualHosts - {sandbox};
    }

    /** The credential part of a spawn: nothing is kept if any of its calls fails. */
    method PrepareProvider(q: Request, g: Gateway) returns (provider: Option<string>, failed: bool)
      requires Consistent() && g.provider !in providers
      modifies this`providers, this`providerIds
      ensures failed <==> q.credential && g.failAt.Some? &&
                          AtCredential(g.failAt.value)
      ensures !failed ==> provider == if q.credential then Some(g.provider) else None
      ensures !failed && q.credential ==>
                providers == old(providers) + {g.provider} && providerIds == old(providerIds)[q.agent := g.provider]
      ensures !q.credential ==> providers == old(providers) && providerIds == old(providerIds)
      ensures failed && g.deleteProviderWorks ==> providers == old(providers)
      ensures failed ==> providerIds == old(providerIds) || providerIds == old(providerIds) - {q.agent}
    {
      provider, failed := None, false;
      if q.credential {
        if g.failAt.Some? && g.failAt.value in {NoCredential, NoVendor, Profile, CreateProvider} {
          return None, true;
        }
        providers := providers + {g.provider};
        providerIds := providerIds[q.agent := g.provider];
        provider := Some(g.provider);
        if g.failAt == Some(SetRoute) {
          providerIds := providerIds - {q.agent};
          var ok := DeleteProvider(g.provider, g.deleteProviderWorks);
          failed := true;
        }
      }
    }

    /** _create_and_start: create the sandbox, track it, then go through the post-create
        steps. `created` is the name CreateSandbox returned, if it did. */
    method CreateAndStart(
        q: Request, g: Gateway, provider: Option<string>)
        returns (created: Option<string>, failed: bool)
      requires g.sandbox !in sandboxes
      requires q.credential && g.failAt.Some? ==> !AtCredential(g.failAt.value)
      modifies this`sandboxes, this`attached, this`sandboxNames, this`sandboxIds, this`virtualHosts
      ensures failed <==> g.failAt.Some? && Applies(q, g.failAt.value)
      ensures created.None? <==> g.failAt == Some(CreateSandbox)
      ensures created.None? ==>
                && sandboxes == old(sandboxes) && attached == old(attached) && virtualHosts == old(virtualHosts)
                && sandboxNames == old(sandboxNames) && sandboxIds == old(sandboxIds)
      ensures created.Some? ==>
                && created.value == g.sandbox && sandboxes == old(sandboxes) + {g.sandbox}
                && attached == old(attached) + (if provider.Some? then {(g.sandbox, provider.value)} else {})
                && sandboxNames == old(sandboxNames)[q.agent := g.sandbox]
                && sandboxIds == old(sandboxIds)[q.agent := g.sandboxId]
                && virtualHosts - {g.sandbox} == old(virtualHosts) - {g.sandbox}
      ensures !failed ==> virtualHosts == old(virtualHosts)[g.sandbox := g.host]
    {
      if g.failAt == Some(CreateSandbox) {
        return None, true;
      }
      sandboxes := sandboxes + {g.sandbox};
      if provider.Some? {
        attached := attached + {(g.sandbox, provider.value)};
      }
      created := Some(g.sandbox);
      sandboxNames := sandboxNames[q.agent := g.sandbox];
      sandboxIds := sandboxIds[q.agent := g.sandboxId];
      failed := Start(q, g);
    }

    /** The steps from the created sandbox to a server that answers. */
    method Start(q: Request, g: Gateway) returns (failed: bool)
      requires g.failAt != Some(CreateSandbox)
      requires q.credential && g.failAt.Some? ==> !AtCredential(g.failAt.value)
      modifies this`virtualHosts
      ensures failed <==> g.failAt.Some? && Applies(q, g.failAt.value)
      ensures virtualHosts in {old(virtualHosts), old(virtualHosts)[g.sandbox := g.host]}
      ensures !failed ==> virtualHosts == old(virtualHosts)[g.sandbox := g.host]
    {
      if g.failAt == Some(WaitReady) {
        return true;
      }
      if q.secrets && g.failAt == Some(InjectSecrets) {
        return true;
      }
      if q.skills != [] && !q.readOnly && g.failAt == Some(Materialize) {
        return true;
      }
      if g.failAt == Some(StartServer) || g.failAt == Some(Expose) {
        return true;
      }
      virtualHosts := virtualHosts[g.sandbox := g.host];
      failed := g.failAt == Some(HttpReady);
    }

    /** The cleanup after a failed post-create step: the sandbox first, then the provider,
        which by then is attached to nothing. The tracking entries go whether or not the
        gateway's calls work. */
    method GiveBack(agent: string, created: Option<string>, provider: Option<string>, g: Gateway)
      requires provider.Some? ==> agent in providerIds && providerIds[agent] == provider.value
      requires provider.Some? ==>
                 forall x :: x in attached && x.1 == provider.value ==> created.Some? && x.0 == created.value
      modifies this
      ensures created.Some? ==> sandboxNames == old(sandboxNames) - {agent} && sandboxIds == old(sandboxIds) - {agent}
      ensures created.None? ==> sandboxNames == old(sandboxNames) && sandboxIds == old(sandboxIds)
      ensures providerIds == old(providerIds) - {agent}
      ensures virtualHosts == old(virtualHosts) - (if created.Some? then {created.value} else {})
      ensures sandboxes == old(sandboxes) - (if created.Some? && g.deleteSandboxWorks then {created.value} else {})
      ensures !g.deleteProviderWorks ==> providers == old(providers)
      ensures CleanupWorks(g) ==>
                && providers == old(providers) - (if provider.Some? then {provider.value} else {})
                && attached == set x | x in old(attached) && (created.Some? ==> x.0 != created.value)
    {
      if created.Some? {
        CleanupSandbox(agent, created.value, g);
      } else {
        providerIds := providerIds - {agent};
      }
      if provider.Some? {
        var ok := DeleteProvider(provider.value, g.deleteProviderWorks);
        assert CleanupWorks(g) ==> ok;
      }
    }

    /** The region of a spawn that cleans up after itself. */
    method CreateOrGiveBack(q: Request, g: Gateway, provider: Option<string>) returns (endpoint: Option<string>)
      requires g.sandbox !in sandboxes
      requires forall x :: x in attached ==> x.0 in sandboxes && Some(x.1) != provider
      requires provider.Some? ==> q.agent in providerIds && providerIds[q.agent] == provider.value
      requires q.credential && g.failAt.Some? ==> !AtCredential(g.failAt.value)
      modifies this
      ensures endpoint.Some? <==> !(g.failAt.Some? && Applies(q, g.failAt.value))
      ensures endpoint.Some? ==> endpoint == Some(g.endpoint)
      ensures endpoint.Some? ==>
                && sandboxes == old(sandboxes) + {g.sandbox} && providers == old(providers)
                && attached == old(attached) + (if provider.Some? then {(g.sandbox, provider.value)} else {})
                && sandboxNames == old(sandboxNames)[q.agent := g.sandbox]
                && sandboxIds == old(sandboxIds)[q.agent := g.sandboxId]
                && virtualHosts == old(virtualHosts)[g.sandbox := g.host] && providerIds == old(providerIds)
      ensures endpoint.None? ==>
                && sandboxNames in {old(sandboxNames), old(sandboxNames) - {q.agent}}
                && sandboxIds in {old(sandboxIds), old(sandboxIds) - {q.agent}}
                && virtualHosts in {old(virtualHosts), old(virtualHosts) - {g.sandbox}}
                && providerIds == old(providerIds) - {q.agent}
      ensures endpoint.None? && CleanupWorks(g) ==>
                && sandboxes == old(sandboxes) && attached == old(attached)
                && providers == old(providers) - (if provider.Some? then {provider.value} else {})
    {
      var created, failed := CreateAndStart(q, g, provider);
      if !failed {
        return Some(g.endpoint);
      }
      GiveBack(q.agent, created, provider, g);
      AddRemove(old(sandboxNames), q.agent, g.sandbox);
      AddRemove(old(sandboxIds), q.agent, g.sandboxId);
      assert virtualHosts == if created.Some? then old(virtualHosts) - {g.sandbox} else old(virtualHosts);
      return None;
    }

    /** _build_network_policy: whether it returns without raising. */
    method BuildNetworkPolicy(rd: Reader, q: Request) returns (ok: bool)
      ensures ok <==> NetworkPolicyBuilds(rd, q)
    {
      if q.providerUrl != "" && rd.urlRaises(q.providerUrl) {
        return false;
      }
      if q.mcpServers == "" {
        return true;
      }
      match rd.loads(q.mcpServers) {
        case Malformed => return true;
        case Escapes => return false;
        case Value(servers) =>
          if !servers.Arr? {
            return !((servers.Str? || servers.Obj?) && Truthy(servers));
          }
          for i := 0 to |servers.items|
            invariant forall j :: 0 <= j < i ==> ServerReads(rd, servers.items[j])
          {
            var server := servers.items[i];
            if !server.Obj? {
              return false;
            }
            if "url" !in server.fields || !Truthy(server.fields["url"]) {
              continue;
            }
            var url := server.fields["url"];
            if !url.Str? || rd.urlRaises(url.s) {
              return false;
            }
          }
          return true;
      }
    }

    /** The filesystem policy: whether it is built without raising. */
    method BuildFilesystemPolicy(q: Request) returns (ok: bool)
      ensures ok <==> FilesystemPolicyBuilds(q)
    {
      if q.readOnly {
        return true;
      }
      for i := 0 to |q.skills|
        invariant forall j :: 0 <= j < i ==> ValidSkill(q.skills[j])
      {
        var name := q.skills[i];
        if name == "" {
          return false;
        }
        if '/' in name {
          return false;
        }
        if name == "." || name == ".." {
          return false;
        }
      }
      return true;
    }

    /** _do_spawn. A failed spawn gives everything back, wherever it fails, except when a
        policy cannot be built after the provider was created: then the provider stays
        behind, with its tracking entry. */
    method DoSpawn(rd: Reader, q: Request, g: Gateway) returns (endpoint: Option<string>)
      requires Consistent()
      requires g.provider !in providers && g.sandbox !in sandboxes
      modifies this
      ensures endpoint == if Succeeds(rd, q, g) then Some(g.endpoint) else None
      ensures endpoint.Some? ==>
                && sandboxes == old(sandboxes) + {g.sandbox}
                && sandboxNames == old(sandboxNames)[q.agent := g.sandbox]
                && sandboxIds == old(sandboxIds)[q.agent := g.sandboxId]
                && virtualHosts == old(virtualHosts)[g.sandbox := g.host]
                && (if q.credential then
                      && providers == old(providers) + {g.provider}
                      && attached == old(attached) + {(g.sandbox, g.provider)}
                      && providerIds == old(providerIds)[q.agent := g.provider]
                    else providers == old(providers) && attached == old(attached) && providerIds == old(providerIds))
      ensures endpoint.None? && !Strands(rd, q, g) ==>
                && sandboxNames in {old(sandboxNames), old(sandboxNames) - {q.agent}}
                && sandboxIds in {old(sandboxIds), old(sandboxIds) - {q.agent}}
                && providerIds in {old(providerIds), old(providerIds) - {q.agent}}
                && virtualHosts in {old(virtualHosts), old(virtualHosts) - {g.sandbox}}
      ensures endpoint.None? && !Strands(rd, q, g) && CleanupWorks(g) ==>
                sandboxes == old(sandboxes) && providers == old(providers) && attached == old(attached)
      ensures Strands(rd, q, g) ==>
                && sandboxes == old(sandboxes) && attached == old(attached)
                && providers == old(providers) + {g.provider}
                && providerIds == old(providerIds)[q.agent := g.provider]
    {
      var provider, failed := PrepareProvider(q, g);
      if failed {
        return None;
      }
      var network := BuildNetworkPolicy(rd, q);
      if !network {
        return None;
      }
      var filesystem := BuildFilesystemPolicy(q);
      if !filesystem {
        return None;
      }
      endpoint := CreateOrGiveBack(q, g, provider);
      AddRemove(old(providerIds), q.agent, g.provider);
    }
  }
}
