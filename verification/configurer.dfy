/** What the `DisConfPropertyConfigurer` constructor derives from the bootstrap file
    `disconf.properties`: the server's base URL, the host-discovery URL, the download URL
    and the ZooKeeper node of every configuration item, the nodes handed to the watcher,
    and the resource locations Spring loads. Reading the bootstrap file and fetching the
    host list are oracles; local-file creation and logging are left out. */
module Configurer {
  import opened Wrappers
  import opened JavaStrings
  import opened Enumerations
  import ZookeeperWatcher
  import ChangeHandler

  type Props = map<string, string>

  const HttpPrefix: string := "http"
  const Scheme: string := "http://"
  const HostsPath: string := "/api/zoo/hosts"
  const ItemQuery: string := "/api/config/file?type=0&app="
  const NodeRoot: string := "/disconf/"
  /** `localConf.getName()` for the local override file `conf/app.properties`. */
  const LocalConfName: string := "app.properties"
  /** What `Properties.getProperty` returns for a missing key, as `append` and
      `String.format` print it. */
  const Null: string := "null"

  // ---------------------------------------------------------------------------
  // URLs and node paths
  // ---------------------------------------------------------------------------

  /** The server's base URL: `conf_server_host` as given when it starts with `http`,
      otherwise behind `http://`. */
  function BaseUrl(host: string): (url: string)
    ensures StartsWith(url, HttpPrefix)
    ensures EndsWith(url, host)
  {
    if StartsWith(host, HttpPrefix) then host
    else
      assert (Scheme + host)[..|HttpPrefix|] == Scheme[..|HttpPrefix|];
      assert (Scheme + host)[|Scheme + host| - |host|..] == host;
      Scheme + host
  }

  /** Writing the base URL out a second time changes nothing. */
  lemma BaseUrlIdempotent(host: string)
    ensures BaseUrl(BaseUrl(host)) == BaseUrl(host)
  {
  }

  /** A host already carrying a scheme is kept verbatim; any other is prefixed with
      exactly `http://`. */
  lemma BaseUrlAddsSchemeOnlyWhenMissing(host: string)
    ensures StartsWith(host, HttpPrefix) <==> BaseUrl(host) == host
    ensures !StartsWith(host, HttpPrefix) ==> BaseUrl(host)[|Scheme|..] == host
  {
    if !StartsWith(host, HttpPrefix) {
      assert |BaseUrl(host)| == |Scheme| + |host|;
    }
  }

  /** The URL the ZooKeeper host list is read from. */
  function HostsUrl(base: string): (url: string)
    ensures StartsWith(url, base) && EndsWith(url, HostsPath)
  {
    assert (base + HostsPath)[..|base|] == base;
    assert (base + HostsPath)[|base|..] == HostsPath;
    base + HostsPath
  }

  /** The version or environment as it enters URLs and paths: `null` when missing. */
  function Setting(bootstrap: Props, key: string): string {
    if key in bootstrap then bootstrap[key] else Null
  }

  /** `configItemUrlPrefix`: the download URL of an item without the item. */
  function ItemUrlPrefix(base: string, app: string, version: string, env: string): (prefix: string)
    ensures |prefix| > 0 && prefix[|prefix| - 1] == '='
  {
    base + ItemQuery + app + "&version=" + version + "&env=" + env + "&key="
  }

  /** `configItemNodePrefix`: the ZooKeeper directory of the application's items. */
  function NodePrefix(app: string, version: string, env: string): (prefix: string)
    ensures StartsWith(prefix, NodeRoot)
    ensures |prefix| > 0 && prefix[|prefix| - 1] == '/'
  {
    var p := NodeRoot + app + "_" + version + "_" + env + "/file/";
    assert p[..|NodeRoot|] == NodeRoot;
    p
  }

  /** An item is addressed by appending it to a prefix: the download URL and the node
      path of `item`. */
  function Under(prefix: string, item: string): string {
    prefix + item
  }

  /** Different items get different addresses under one prefix. */
  lemma UnderIsInjective(prefix: string, item1: string, item2: string)
    ensures Under(prefix, item1) == Under(prefix, item2) <==> item1 == item2
  {
    if Under(prefix, item1) == Under(prefix, item2) {
      assert Under(prefix, item1)[|prefix|..] == item1;
      assert Under(prefix, item2)[|prefix|..] == item2;
    }
  }

  /** `Under` with a fixed prefix is injective, for every pair of items at once. */
  lemma UnderIsInjectiveEverywhere(prefix: string)
    ensures forall item1, item2 :: Under(prefix, item1) == Under(prefix, item2) ==> item1 == item2
  {
    forall item1, item2 | Under(prefix, item1) == Under(prefix, item2) ensures item1 == item2 {
      UnderIsInjective(prefix, item1, item2);
    }
  }

  /** A prefix ending in a separator that `.properties` lacks: the address ends in
      `.properties` exactly when the item does. */
  lemma UnderKeepsKind(prefix: string, item: string)
    requires |prefix| > 0 && prefix[|prefix| - 1] in {'/', '='}
    ensures ZookeeperWatcher.IsProperties(Under(prefix, item)) <==> ZookeeperWatcher.IsProperties(item)
  {
    var sep := prefix[|prefix| - 1];
    var head := prefix[..|prefix| - 1];
    assert prefix == head + [sep];
    assert sep !in ZookeeperWatcher.PropertiesSuffix;
    EndsWithAfterSeparator(head, sep, item, ZookeeperWatcher.PropertiesSuffix);
  }

  /** The watcher names the local copy of an item's node after the item itself, as
      long as the item has no `/`. */
  lemma NodeCacheFileIsItem(app: string, version: string, env: string, item: string)
    requires '/' !in item
    ensures ZookeeperWatcher.CacheFileName(Under(NodePrefix(app, version, env), item)) == item
  {
    var prefix := NodePrefix(app, version, env);
    var head := prefix[..|prefix| - 1];
    assert prefix == head + "/";
    assert Under(prefix, item) == head + "/" + item;
    ZookeeperWatcher.CacheFileNameOfChild(head, item);
  }

  /** A missing `version` or `env` shows up as the text `null` in both addresses. */
  lemma MissingSettingIsNull(bootstrap: Props, app: string)
    requires "version" !in bootstrap && "env" !in bootstrap
    ensures NodePrefix(app, Setting(bootstrap, "version"), Setting(bootstrap, "env"))
            == "/disconf/" + app + "_null_null/file/"
  {
  }

  // ---------------------------------------------------------------------------
  // Resource locations
  // ---------------------------------------------------------------------------

  /** The `.properties` entries of `s`, in order. */
  function PropertiesOnly(s: seq<string>): (r: seq<string>)
    ensures |r| <= |s|
    ensures forall x :: x in r <==> x in s && ZookeeperWatcher.IsProperties(x)
  {
    if |s| == 0 then []
    else
      var rest := PropertiesOnly(s[1..]);
      assert forall x :: x in s <==> x == s[0] || x in s[1..];
      if ZookeeperWatcher.IsProperties(s[0]) then [s[0]] + rest else rest
  }

  /** Filtering a concatenation filters each part. */
  lemma {:induction false} PropertiesOnlyAppend(a: seq<string>, b: seq<string>)
    ensures PropertiesOnly(a + b) == PropertiesOnly(a) + PropertiesOnly(b)
  {
    if |a| == 0 {
      assert a + b == b;
    } else {
      assert (a + b)[0] == a[0];
      assert (a + b)[1..] == a[1..] + b;
      PropertiesOnlyAppend(a[1..], b);
    }
  }

  // ---------------------------------------------------------------------------
  // The constructor
  // ---------------------------------------------------------------------------

  /** How the constructor ends: without the bootstrap file only local locations;
      otherwise the ZooKeeper host list, the nodes the watcher watches (node path to
      download URL), its download directory, and the location map Spring loads from. */
  datatype Setup =
    | LocalOnly(locationList: seq<string>)
    | Remote(zookeeperHosts: string, watched: map<string, string>, downloadDir: Option<string>,
             locations: map<string, string>)

  /** Why the constructor throws: no `conf_server_host` (a `NullPointerException` at
      `startsWith`), no host list (every failure of the fetch is rethrown as a
      `RuntimeException`), or two equal items (`Collectors.toMap` throws an
      `IllegalStateException`). */
  datatype StartupError = MissingServerHost | HostsUnavailable | DuplicateItem

  /** The node-to-URL map the constructor collects from the items. */
  function WatchedNodes(nodePrefix: string, urlPrefix: string, items: seq<string>): (nodes: map<string, string>)
    ensures forall node :: node in nodes <==> exists item :: item in items && node == Under(nodePrefix, item)
  {
    UnderIsInjectiveEverywhere(nodePrefix);
    map item | item in items :: Under(nodePrefix, item) := Under(urlPrefix, item)
  }

  /** The constructor. `bootstrap` is what `readDisConfProperties` returned (`None` for
      `null`), `localUri` the URI of the local override file, and `hostList` the
      `value` the host-discovery URL answered with (`None` when opening, reading or
      parsing it failed, or the value was missing). */
  function Start(app: string, items: seq<string>, bootstrap: Option<Props>, localUri: string,
                 hostList: Option<string>): (r: Result<Setup, StartupError>)
    ensures r.Success? && r.value.LocalOnly? <==> bootstrap.None?
    ensures r == Failure(MissingServerHost) <==>
              bootstrap.Some? && "conf_server_host" !in bootstrap.value
    ensures r == Failure(HostsUnavailable) <==>
              bootstrap.Some? && "conf_server_host" in bootstrap.value && hostList.None?
    ensures r == Failure(DuplicateItem) <==>
              bootstrap.Some? && "conf_server_host" in bootstrap.value && hostList.Some?
              && !Distinct(items)
  {
    match bootstrap
    case None => Success(LocalOnly(PropertiesOnly(items + [localUri])))
    case Some(conf) =>
      if "conf_server_host" !in conf then Failure(MissingServerHost)
      else if hostList.None? then Failure(HostsUnavailable)
      else if !Distinct(items) then Failure(DuplicateItem)
      else
        var base := BaseUrl(conf["conf_server_host"]);
        var version, env := Setting(conf, "version"), Setting(conf, "env");
        var nodes := WatchedNodes(NodePrefix(app, version, env), ItemUrlPrefix(base, app, version, env), items);
        var all := nodes[LocalConfName := localUri];
        var downloadDir := if "user_define_download_dir" in conf then Some(conf["user_define_download_dir"]) else None;
        Success(Remote(hostList.value, nodes, downloadDir,
                       map k | k in all && ZookeeperWatcher.IsProperties(k) :: all[k]))
  }

  /** Local mode: the locations are the `.properties` items in their given order,
      followed by the local override file when its URI ends in `.properties`. */
  lemma LocalModeLocations(app: string, items: seq<string>, localUri: string, hostList: Option<string>)
    ensures Start(app, items, None, localUri, hostList).value.locationList
            == PropertiesOnly(items) + (if ZookeeperWatcher.IsProperties(localUri) then [localUri] else [])
  {
    PropertiesOnlyAppend(items, [localUri]);
    assert [localUri][1..] == [];
  }

  /** Remote mode: the watcher watches exactly one node per item, under the
      application's directory, and downloads it from the item's URL; the local override
      file is not among them. */
  lemma RemoteWatchesEveryItem(app: string, items: seq<string>, conf: Props, localUri: string,
                               hosts: string, item: string)
    requires Start(app, items, Some(conf), localUri, Some(hosts)).Success?
    ensures var s := Start(app, items, Some(conf), localUri, Some(hosts)).value;
            var version, env := Setting(conf, "version"), Setting(conf, "env");
            var node := Under(NodePrefix(app, version, env), item);
            && s.zookeeperHosts == hosts
            && (node in s.watched <==> item in items)
            && (item in items ==>
                  s.watched[node] == Under(ItemUrlPrefix(BaseUrl(conf["conf_server_host"]), app, version, env), item))
            && LocalConfName !in s.watched
  {
    var version, env := Setting(conf, "version"), Setting(conf, "env");
    var nodePrefix := NodePrefix(app, version, env);
    var s := Start(app, items, Some(conf), localUri, Some(hosts)).value;
    forall other | other in items && Under(nodePrefix, other) == Under(nodePrefix, item)
      ensures other == item
    {
      UnderIsInjective(nodePrefix, other, item);
    }
  }

  /** Remote mode: the locations are the watched `.properties` nodes with their download
      URLs, plus the local override file under its own name; nothing else. */
  lemma RemoteLocations(app: string, items: seq<string>, conf: Props, localUri: string,
                        hosts: string, node: string)
    requires Start(app, items, Some(conf), localUri, Some(hosts)).Success?
    ensures var s := Start(app, items, Some(conf), localUri, Some(hosts)).value;
            && s.locations[LocalConfName] == localUri
            && (node in s.watched ==>
                  (node in s.locations <==> ZookeeperWatcher.IsProperties(node))
                  && (node in s.locations ==> s.locations[node] == s.watched[node]))
            && (node in s.locations ==> node in s.watched || node == LocalConfName)
  {
    var s := Start(app, items, Some(conf), localUri, Some(hosts)).value;
    assert ZookeeperWatcher.IsProperties(LocalConfName) by {
      assert LocalConfName[3..] == ZookeeperWatcher.PropertiesSuffix;
    }
    RemoteWatchesEveryItem(app, items, conf, localUri, hosts, "");
    RemoteLocationsFilter(app, items, conf, localUri, hosts);
    var all := s.watched[LocalConfName := localUri];
    assert all[LocalConfName] == localUri;
  }

  /** Remote mode: the locations are the `.properties` entries of the watched nodes
      with the local override file added. */
  lemma RemoteLocationsFilter(app: string, items: seq<string>, conf: Props, localUri: string,
                              hosts: string)
    requires Start(app, items, Some(conf), localUri, Some(hosts)).Success?
    ensures var s := Start(app, items, Some(conf), localUri, Some(hosts)).value;
            var all := s.watched[LocalConfName := localUri];
            s.locations == map k | k in all && ZookeeperWatcher.IsProperties(k) :: all[k]
  {
  }

  /** A watched node is a location exactly when its item ends in `.properties`. */
  lemma RemoteLocationFollowsItem(app: string, items: seq<string>, conf: Props, localUri: string,
                                  hosts: string, item: string)
    requires Start(app, items, Some(conf), localUri, Some(hosts)).Success?
    requires item in items
    ensures var s := Start(app, items, Some(conf), localUri, Some(hosts)).value;
            Under(NodePrefix(app, Setting(conf, "version"), Setting(conf, "env")), item) in s.locations
            <==> ZookeeperWatcher.IsProperties(item)
  {
    var node := Under(NodePrefix(app, Setting(conf, "version"), Setting(conf, "env")), item);
    RemoteWatchesEveryItem(app, items, conf, localUri, hosts, item);
    RemoteLocations(app, items, conf, localUri, hosts, node);
    UnderKeepsKind(NodePrefix(app, Setting(conf, "version"), Setting(conf, "env")), item);
  }

  // ---------------------------------------------------------------------------
  // Refreshes
  // ---------------------------------------------------------------------------

  /** The old snapshot `changeBeanProperties` passes on: a missing one (`null`) becomes
      the one-entry map `old=` so that the handler's empty-snapshot guard lets the refresh
      through; a present one, even empty, is passed as it is. */
  function OldOrMarker(oldProps: Option<Props>): (r: Props)
    ensures oldProps.None? ==> |r| > 0 && r.Keys == {"old"}
    ensures oldProps.Some? ==> r == oldProps.value
  {
    match oldProps
    case Some(p) => p
    case None => map["old" := ""]
  }

  /** Without an old snapshot every key of the new one counts as changed, except an
      `old` key holding the empty text. */
  lemma MissingOldChangesEveryKey(newProps: Props, k: string)
    requires k in newProps && (k != "old" || newProps[k] != "")
    ensures k in ChangeHandler.ChangedKeys(OldOrMarker(None), newProps)
  {
    ChangeHandler.RawDifferenceIsChange(OldOrMarker(None), newProps, k);
  }

  /** `changeBeanProperties(old, new)` of the configurer: a missing old snapshot
      re-delivers every bound key of the new one, while an empty one still silences the
      refresh. */
  method ChangeBeanProperties(h: ChangeHandler.Handler, oldProps: Option<Props>, newProps: Props,
                              order: seq<string>, env: Props,
                              rejected: set<(string, ChangeHandler.Binding)>)
    returns (delivery: ChangeHandler.Registry, injections: set<ChangeHandler.Injection>)
    requires IsEnumeration(order, newProps.Keys)
    ensures oldProps.None? ==>
              forall key :: key in h.registry && key in newProps && key != "old" ==> key in delivery
    ensures oldProps == Some(map[]) || |newProps| == 0 ==> delivery == map[] && injections == {}
    ensures oldProps != Some(map[]) && |newProps| > 0 ==>
              forall key :: key in delivery <==>
                key in h.registry
                && (key in ChangeHandler.ChangedKeys(OldOrMarker(oldProps), newProps)
                    || (key in h.patterns
                        && ChangeHandler.MatchesSome(key, ChangeHandler.ChangedKeys(OldOrMarker(oldProps), newProps))))
    ensures forall key :: key in delivery ==> key in h.registry && delivery[key] == h.registry[key]
    ensures injections == ChangeHandler.Inject(delivery, newProps, order, env, rejected)
  {
    delivery, injections := ChangeHandler.ChangeBeanProperties(h, OldOrMarker(oldProps), newProps, order, env, rejected);
    if oldProps.None? {
      forall key | key in h.registry && key in newProps && key != "old" ensures key in delivery {
        MissingOldChangesEveryKey(newProps, key);
      }
    }
  }

  /** `mergeProperties`: the merged properties become the watcher's old snapshot, so the
      next update compares against them. */
  function MergeProperties(watcher: Option<ZookeeperWatcher.Watcher>, merged: Props): (r: Option<ZookeeperWatcher.Watcher>)
    ensures r.Some? <==> watcher.Some?
  {
    match watcher
    case None => None
    case Some(w) => Some(w.(previous := Some(merged)))
  }

  /** After a merge, the next update of a known node hands the merged properties to the
      change handler as the old snapshot. */
  lemma UpdateAfterMergeComparesWithMerged(w: ZookeeperWatcher.Watcher, merged: Props, node: string)
    requires node in w.resources
    ensures var w' := MergeProperties(Some(w), merged).value;
            ZookeeperWatcher.DoUpdateSingle(w', Some(node)).Some?
            && ZookeeperWatcher.DoUpdateSingle(w', Some(node)).value.refresh.before == Some(merged)
  {
    ZookeeperWatcher.SingleUpdateIgnoresSiblings(MergeProperties(Some(w), merged).value, node);
  }
}
