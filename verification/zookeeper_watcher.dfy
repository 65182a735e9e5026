/** The decisions of `ZookeeperWatcher`: which ZooKeeper events cause an update, which
    nodes an update reads, what each node contributes to the new configuration snapshot,
    what it leaves on disk and in the presence node, and how the snapshot handed to the
    change handler replaces the previous one. Reading a node's resource is an oracle
    (`Fetch`); `Properties.load` is taken as already done (a fetched node carries the
    key/values its bytes give under each of the two decodings the watcher uses). */
module ZookeeperWatcher {
  import opened Wrappers
  import opened JavaStrings
  import opened Enumerations

  type Props = map<string, string>

  const PropertiesSuffix: string := ".properties"

  // ---------------------------------------------------------------------------
  // Names
  // ---------------------------------------------------------------------------

  /** `isProperties(node)`. */
  predicate IsProperties(node: string) {
    EndsWith(node, PropertiesSuffix)
  }

  lemma IsPropertiesExamples()
    ensures IsProperties("/disconf/app_1_0_dev/file/app.properties")
    ensures IsProperties(".properties")
    ensures !IsProperties("app.properties.bak")
    ensures !IsProperties("app.yml")
    ensures !IsProperties("properties")
  {
    assert "/disconf/app_1_0_dev/file/app.properties"[29..] == ".properties";
    assert "app.properties.bak"[7..] != ".properties" by {
      assert "app.properties.bak"[7] != '.';
    }
  }

  /** The name `copyToLocal` gives the local copy of `node`: the text after its last
      `/`, or all of it when it has none. */
  function CacheFileName(node: string): (item: string)
    ensures '/' !in item
    ensures EndsWith(node, item)
    ensures '/' !in node ==> item == node
    ensures '/' in node ==> |item| < |node| && node[|node| - |item| - 1] == '/'
  {
    var slash := LastIndexOf(node, '/');
    assert node[slash + 1..] == node[|node| - |node[slash + 1..]|..];
    node[slash + 1..]
  }

  /** `CacheFileName` undoes appending a `/`-free name to a path. */
  lemma CacheFileNameOfChild(parent: string, name: string)
    requires '/' !in name
    ensures CacheFileName(parent + "/" + name) == name
  {
    var s := parent + "/" + name;
    assert s[|parent|] == '/';
    assert s[|parent| + 1..] == name;
    LastIndexOfIsLast(s, '/', |parent|);
  }

  /** The presence node `makeNodeTempPath` creates under `path` for this process. */
  function PresencePath(path: string, fingerprint: string): string {
    path + "/" + fingerprint
  }

  /** The presence node is a child of the watched node, named by the fingerprint. */
  lemma PresencePathIsChild(path: string, fingerprint: string)
    requires '/' !in fingerprint
    ensures StartsWith(PresencePath(path, fingerprint), path + "/")
    ensures CacheFileName(PresencePath(path, fingerprint)) == fingerprint
  {
    assert PresencePath(path, fingerprint)[..|path + "/"|] == path + "/";
    CacheFileNameOfChild(path, fingerprint);
  }

  /** The key/values `watchByThisIp` publishes for `path`: for a `.properties` node,
      `kvs`, what `Properties.load` reads from the node's byte stream; none for any
      other. */
  function PresencePayload(path: string, kvs: Props): Props {
    if IsProperties(path) then kvs else map[]
  }

  /** Only a `.properties` node publishes key/values, and then exactly its own. */
  lemma PayloadOnlyForProperties(path: string, kvs: Props)
    ensures PresencePayload(path, kvs) != map[] ==> IsProperties(path) && PresencePayload(path, kvs) == kvs
    ensures kvs != map[] ==> (PresencePayload(path, kvs) == kvs <==> IsProperties(path))
  {
  }

  // ---------------------------------------------------------------------------
  // getClusterHosts
  // ---------------------------------------------------------------------------

  /** What `getClusterHosts` returns: it throws `NoSuchElementException` when no node is
      watched, returns `null` when listing the first node's children fails or a child
      name has no `_`, and otherwise the part before the first `_` of every child. */
  datatype HostsOutcome = NoSuchElement | NullHosts | Hosts(hosts: seq<string>)

  /** Every child name has a `_`. */
  predicate AllHaveSeparator(children: seq<string>) {
    forall i :: 0 <= i < |children| ==> '_' in children[i]
  }

  /** `getClusterHosts()`: `nodes` is the key order of the watched nodes and `children`
      the answer of `getChildren` for the first of them. */
  function ClusterHosts(nodes: seq<string>, children: Result<seq<string>, string>): (r: HostsOutcome)
    ensures r == NoSuchElement <==> |nodes| == 0
    ensures r == NullHosts <==> |nodes| > 0 && (children.Failure? || !AllHaveSeparator(children.value))
    ensures r.Hosts? ==> children.Success? && |r.hosts| == |children.value|
    ensures r.Hosts? ==> forall i :: 0 <= i < |r.hosts| ==>
              && '_' !in r.hosts[i]
              && StartsWith(children.value[i], r.hosts[i] + "_")
  {
    if |nodes| == 0 then NoSuchElement
    else match children
      case Failure(_) => NullHosts
      case Success(cs) =>
        if !AllHaveSeparator(cs) then NullHosts
        else
          var hosts := seq(|cs|, i requires 0 <= i < |cs| => cs[i][..IndexOf(cs[i], '_')]);
          assert forall i :: 0 <= i < |cs| ==> cs[i][..|hosts[i]| + 1] == hosts[i] + "_";
          Hosts(hosts)
  }

  /** A child `host_suffix` yields `host`. */
  lemma ClusterHostsExample()
    ensures ClusterHosts(["/n"], Success(["h_1"])) == Hosts(["h"])
  {
    assert AllHaveSeparator(["h_1"]) by {
      assert ["h_1"][0][1] == '_';
    }
    assert IndexOf("h_1", '_') == 1 by {
      assert "h_1"[0] != '_';
    }
    var r := ClusterHosts(["/n"], Success(["h_1"]));
    assert r.Hosts? && |r.hosts| == 1;
    assert r.hosts[0] == "h_1"[..1] == "h";
    assert r.hosts == ["h"];
  }

  /** One child without `_` turns the whole answer into `null`. */
  lemma ClusterHostsNeedsEverySeparator()
    ensures ClusterHosts(["/n"], Success(["a_1", "solo"])) == NullHosts
  {
    assert !AllHaveSeparator(["a_1", "solo"]) by {
      assert ["a_1", "solo"][1] == "solo";
    }
  }

  // ---------------------------------------------------------------------------
  // Event dispatch
  // ---------------------------------------------------------------------------

  datatype EventType = NoneType | NodeCreated | NodeDeleted | NodeDataChanged | NodeChildrenChanged

  datatype KeeperState =
    | Disconnected | SyncConnected | AuthFailed | ConnectedReadOnly | SaslAuthenticated
    | Expired | Closed

  datatype WatchedEvent = WatchedEvent(kind: EventType, state: KeeperState, path: Option<string>)

  /** What the watcher does in response to an event, in order. */
  datatype Action = UpdateSingle(node: Option<string>) | WatchAll | Reconnect

  /** `process(event)`, after the connection bookkeeping of the base class: a data
      change updates the changed node and re-registers every watch; an expired session
      reconnects and re-registers every watch. */
  function Dispatch(e: WatchedEvent): (actions: seq<Action>)
    ensures (exists i :: 0 <= i < |actions| && actions[i].UpdateSingle?) <==> e.kind == NodeDataChanged
    ensures Reconnect in actions <==> e.state == Expired
    ensures forall i :: 0 <= i < |actions| && actions[i].UpdateSingle? ==>
              actions[i].node == e.path && i + 1 < |actions| && actions[i + 1] == WatchAll
    ensures forall i :: 0 <= i < |actions| && actions[i] == Reconnect ==>
              i + 1 < |actions| && actions[i + 1] == WatchAll
    ensures e.kind != NodeDataChanged && e.state != Expired ==> actions == []
  {
    var onData := if e.kind == NodeDataChanged then [UpdateSingle(e.path), WatchAll] else [];
    var onExpiry := if e.state == Expired then [Reconnect, WatchAll] else [];
    assert e.kind == NodeDataChanged ==> (onData + onExpiry)[0].UpdateSingle?;
    onData + onExpiry
  }

  /** `watch()`: a watch is set on every node in turn; a node whose `getData` fails is
      skipped and the walk goes on. Returns the nodes now watched. */
  function Watch(nodes: seq<string>, failing: set<string>): set<string>
    decreases |nodes|
  {
    if |nodes| == 0 then {}
    else (if nodes[0] in failing then {} else {nodes[0]}) + Watch(nodes[1..], failing)
  }

  /** Every node is watched except the failing ones: one failure does not stop the
      rest. */
  lemma {:induction false} WatchSkipsOnlyFailures(nodes: seq<string>, failing: set<string>, n: string)
    ensures n in Watch(nodes, failing) <==> n in nodes && n !in failing
    decreases |nodes|
  {
    if |nodes| > 0 {
      WatchSkipsOnlyFailures(nodes[1..], failing, n);
      assert n in nodes <==> n == nodes[0] || n in nodes[1..];
    }
  }

  // ---------------------------------------------------------------------------
  // Reading nodes and building the snapshot
  // ---------------------------------------------------------------------------

  /** What reading a node's resource gives: no stream (`getInputStream` returned null),
      an `IOException` from `getInputStream`, a failure while copying the stream into
      memory, or the bytes. The bytes are carried as the key/values `Properties.load`
      reads from them twice over: through a UTF-8 reader (`asUtf8`, the snapshot) and
      straight from the byte stream, which decodes ISO-8859-1 (`asLatin1`, the presence
      payload). The two differ on any non-ASCII text. */
  datatype Fetch = NoStream | StreamFails | ReadFails | Fetched(asUtf8: Props, asLatin1: Props)

  /** What a node adds to the new snapshot: its key/values, decoded as UTF-8, when its
      bytes were read and it is a `.properties` node, nothing otherwise. */
  function Contribution(node: string, f: Fetch): Props {
    if f.Fetched? && IsProperties(node) then f.asUtf8 else map[]
  }

  /** A node whose read failed, or that is not a `.properties` node, adds nothing. */
  lemma ContributionNeedsDataAndProperties(node: string, f: Fetch)
    ensures Contribution(node, f) != map[] ==> f.Fetched? && IsProperties(node)
    ensures f.Fetched? && IsProperties(node) ==> Contribution(node, f) == f.asUtf8
  {
  }

  /** The side effects of processing a node whose bytes were read. */
  datatype Effect =
    | Copied(dir: string, name: string)
    | Notified(name: string)
    | Published(path: string, payload: Props)

  /** The directories and the identity the watcher works with. */
  datatype Setting = Setting(downloadDir: string, classpathDir: string, fingerprint: string)

  /** `processNodeDataChange`'s effects for `node`: with its bytes in hand it copies them
      to the download directory and the class path under the cache file name, notifies the
      callbacks, and republishes the presence node with the ISO-8859-1 reading of the
      bytes; a failed read does none of this. */
  function NodeEffects(s: Setting, node: string, f: Fetch): (effects: seq<Effect>)
    ensures !f.Fetched? ==> effects == []
    ensures f.Fetched? ==>
              && Copied(s.downloadDir, CacheFileName(node)) in effects
              && Copied(s.classpathDir, CacheFileName(node)) in effects
              && Published(PresencePath(node, s.fingerprint), PresencePayload(node, f.asLatin1)) in effects
  {
    if !f.Fetched? then []
    else
      var item := CacheFileName(node);
      [Copied(s.downloadDir, item), Copied(s.classpathDir, item), Notified(item),
       Published(PresencePath(node, s.fingerprint), PresencePayload(node, f.asLatin1))]
  }

  /** The presence node of a `.properties` node is republished with the ISO-8859-1
      reading of its bytes, while the snapshot takes the UTF-8 reading: the two agree
      only when the readings do. */
  lemma PresenceAndSnapshotDecodeApart(s: Setting, node: string, asUtf8: Props, asLatin1: Props)
    requires IsProperties(node)
    ensures Contribution(node, Fetched(asUtf8, asLatin1)) == asUtf8
    ensures Published(PresencePath(node, s.fingerprint), asLatin1)
              in NodeEffects(s, node, Fetched(asUtf8, asLatin1))
    ensures asUtf8 != asLatin1 ==>
              Published(PresencePath(node, s.fingerprint), Contribution(node, Fetched(asUtf8, asLatin1)))
                !in NodeEffects(s, node, Fetched(asUtf8, asLatin1))
  {
    var effects := NodeEffects(s, node, Fetched(asUtf8, asLatin1));
    assert effects == [Copied(s.downloadDir, CacheFileName(node)), Copied(s.classpathDir, CacheFileName(node)),
                       Notified(CacheFileName(node)), Published(PresencePath(node, s.fingerprint), asLatin1)];
  }

  /** The `newConfig` the loop of `doUpdate` builds over `nodes`: each node's key/values
      loaded on top of what the earlier nodes gave. */
  function Snapshot(resources: map<string, Fetch>, nodes: seq<string>): Props
    requires forall i :: 0 <= i < |nodes| ==> nodes[i] in resources
    decreases |nodes|
  {
    if |nodes| == 0 then map[]
    else
      var last := nodes[|nodes| - 1];
      Snapshot(resources, nodes[..|nodes| - 1]) + Contribution(last, resources[last])
  }

  /** A key is in the snapshot exactly when some node contributes it. */
  lemma {:induction false} SnapshotKeys(resources: map<string, Fetch>, nodes: seq<string>, k: string)
    requires forall i :: 0 <= i < |nodes| ==> nodes[i] in resources
    ensures k in Snapshot(resources, nodes) <==>
              exists i :: 0 <= i < |nodes| && k in Contribution(nodes[i], resources[nodes[i]])
    decreases |nodes|
  {
    if |nodes| > 0 {
      var init := nodes[..|nodes| - 1];
      SnapshotKeys(resources, init, k);
      if k in Snapshot(resources, nodes) && k !in Snapshot(resources, init) {
        var i := |nodes| - 1;
        assert k in Contribution(nodes[i], resources[nodes[i]]);
      }
      if exists i :: 0 <= i < |nodes| && k in Contribution(nodes[i], resources[nodes[i]]) {
        var i :| 0 <= i < |nodes| && k in Contribution(nodes[i], resources[nodes[i]]);
        if i < |nodes| - 1 {
          assert init[i] == nodes[i];
        }
      }
    }
  }

  /** The later node wins: a key takes its value from the last node that contributes
      it. */
  lemma {:induction false} SnapshotLastWins(resources: map<string, Fetch>, nodes: seq<string>,
                                            k: string, i: nat)
    requires forall j :: 0 <= j < |nodes| ==> nodes[j] in resources
    requires i < |nodes| && k in Contribution(nodes[i], resources[nodes[i]])
    requires forall j :: i < j < |nodes| ==> k !in Contribution(nodes[j], resources[nodes[j]])
    ensures k in Snapshot(resources, nodes)
    ensures Snapshot(resources, nodes)[k] == Contribution(nodes[i], resources[nodes[i]])[k]
    decreases |nodes|
  {
    var init := nodes[..|nodes| - 1];
    if i < |nodes| - 1 {
      assert init[i] == nodes[i];
      forall j | i < j < |init| ensures k !in Contribution(init[j], resources[init[j]]) {
        assert init[j] == nodes[j];
      }
      SnapshotLastWins(resources, init, k, i);
    }
  }

  /** The effects of the loop over `nodes`, node after node. */
  function UpdateEffects(s: Setting, resources: map<string, Fetch>, nodes: seq<string>): seq<Effect>
    requires forall i :: 0 <= i < |nodes| ==> nodes[i] in resources
    decreases |nodes|
  {
    if |nodes| == 0 then []
    else NodeEffects(s, nodes[0], resources[nodes[0]]) + UpdateEffects(s, resources, nodes[1..])
  }

  // ---------------------------------------------------------------------------
  // Updates and the snapshot swap
  // ---------------------------------------------------------------------------

  /** The watcher's state: the node resources, and the last snapshot handed to the
      change handler (`None` before the first one). */
  datatype Watcher = Watcher(setting: Setting, resources: map<string, Fetch>, previous: Option<Props>)

  /** The call `updateSpringBeans` makes: `changeBeanProperties(old, new)`. */
  datatype Refresh = Refresh(before: Option<Props>, after: Props)

  datatype Update = Update(watcher: Watcher, refresh: Refresh, effects: seq<Effect>)

  /** Every node of `nodes` is named and has a resource. */
  predicate AllKnown(w: Watcher, nodes: seq<Option<string>>) {
    forall i :: 0 <= i < |nodes| ==> nodes[i].Some? && nodes[i].value in w.resources
  }

  /** `doUpdate(nodes)`: the snapshot of `nodes` is handed to the change handler and then
      becomes the old snapshot, whatever it holds. A node without a resource makes
      `nodesResource.get(node).getInputStream()` throw a `NullPointerException` (`None`
      here), which leaves the watcher's snapshot as it was. */
  function DoUpdate(w: Watcher, nodes: seq<Option<string>>): (r: Option<Update>)
    ensures r.None? <==> !AllKnown(w, nodes)
    ensures r.Some? ==> && r.value.watcher.resources == w.resources
                        && r.value.watcher.setting == w.setting
                        && r.value.refresh.before == w.previous
                        && r.value.watcher.previous == Some(r.value.refresh.after)
  {
    if !AllKnown(w, nodes) then None
    else
      var names := seq(|nodes|, i requires 0 <= i < |nodes| => nodes[i].value);
      var config := Snapshot(w.resources, names);
      Some(Update(w.(previous := Some(config)), Refresh(w.previous, config),
                  UpdateEffects(w.setting, w.resources, names)))
  }

  /** `doUpdateSingle(node)`. */
  function DoUpdateSingle(w: Watcher, node: Option<string>): Option<Update> {
    DoUpdate(w, [node])
  }

  /** `refreshConfigs()`: every watched node, in the key order `order` of the resource
      map. */
  function RefreshConfigs(w: Watcher, order: seq<string>): (r: Option<Update>)
    requires IsEnumeration(order, w.resources.Keys)
    ensures r.Some?
  {
    DoUpdate(w, seq(|order|, i requires 0 <= i < |order| => Some(order[i])))
  }

  /** A single-node update is built from that node alone: the new snapshot is that
      node's contribution, whatever the other nodes hold. */
  lemma SingleUpdateIgnoresSiblings(w: Watcher, node: string)
    requires node in w.resources
    ensures DoUpdateSingle(w, Some(node)).Some?
    ensures DoUpdateSingle(w, Some(node)).value.refresh.after == Contribution(node, w.resources[node])
  {
    var names := seq(1, i requires 0 <= i < 1 => [Some(node)][i].value);
    assert names == [node];
    assert names[..0] == [];
    assert Snapshot(w.resources, names)
        == map[] + Contribution(node, w.resources[node])
        == Contribution(node, w.resources[node]);
  }

  /** Two watchers that agree on one node's resource and on the old snapshot hand the
      same snapshots to the change handler for an update of that node. */
  lemma SingleUpdateDependsOnlyOnItsNode(w1: Watcher, w2: Watcher, node: string)
    requires node in w1.resources && node in w2.resources
    requires w1.resources[node] == w2.resources[node] && w1.previous == w2.previous
    ensures DoUpdateSingle(w1, Some(node)).value.refresh == DoUpdateSingle(w2, Some(node)).value.refresh
  {
    SingleUpdateIgnoresSiblings(w1, node);
    SingleUpdateIgnoresSiblings(w2, node);
  }

  /** The full refresh reads every node: a key is in its snapshot exactly when some
      watched `.properties` node was read and holds it. */
  lemma RefreshReadsEveryNode(w: Watcher, order: seq<string>, k: string)
    requires IsEnumeration(order, w.resources.Keys)
    ensures RefreshConfigs(w, order).Some?
    ensures k in RefreshConfigs(w, order).value.refresh.after <==>
              exists n :: n in w.resources && k in Contribution(n, w.resources[n])
  {
    var nodes := seq(|order|, i requires 0 <= i < |order| => Some(order[i]));
    var names := seq(|nodes|, i requires 0 <= i < |nodes| => nodes[i].value);
    assert names == order;
    SnapshotKeys(w.resources, order, k);
    if exists n :: n in w.resources && k in Contribution(n, w.resources[n]) {
      var n :| n in w.resources && k in Contribution(n, w.resources[n]);
      var i :| 0 <= i < |order| && order[i] == n;
    }
  }

  /** The swap is unconditional: an update whose nodes all failed to download still
      replaces the old snapshot, with an empty one. */
  lemma FailedDownloadEmptiesSnapshot(w: Watcher, node: string)
    requires node in w.resources && !w.resources[node].Fetched?
    ensures DoUpdateSingle(w, Some(node)).Some?
    ensures DoUpdateSingle(w, Some(node)).value.watcher.previous == Some(map[])
    ensures DoUpdateSingle(w, Some(node)).value.effects == []
  {
    SingleUpdateIgnoresSiblings(w, node);
    var names := seq(1, i requires 0 <= i < 1 => [Some(node)][i].value);
    assert names == [node];
    assert names[1..] == [];
    assert UpdateEffects(w.setting, w.resources, names)
        == NodeEffects(w.setting, node, w.resources[node]) + UpdateEffects(w.setting, w.resources, [])
        == [];
  }

  /** `process(event)` as far as the snapshot goes: a data change on a known node
      replaces the old snapshot with that node's contribution; any other event, or a data
      change on an unknown node, leaves the watcher as it was. */
  function ProcessEvent(w: Watcher, e: WatchedEvent): Watcher {
    if e.kind == NodeDataChanged then
      match DoUpdateSingle(w, e.path)
      case Some(u) => u.watcher
      case None => w
    else w
  }

  lemma ProcessEventSnapshot(w: Watcher, e: WatchedEvent)
    ensures ProcessEvent(w, e).resources == w.resources
    ensures e.kind == NodeDataChanged && e.path.Some? && e.path.value in w.resources ==>
              ProcessEvent(w, e).previous == Some(Contribution(e.path.value, w.resources[e.path.value]))
    ensures e.kind != NodeDataChanged || e.path.None? || e.path.value !in w.resources ==>
              ProcessEvent(w, e) == w
  {
    if e.kind == NodeDataChanged && e.path.Some? && e.path.value in w.resources {
      SingleUpdateIgnoresSiblings(w, e.path.value);
    }
  }
}
