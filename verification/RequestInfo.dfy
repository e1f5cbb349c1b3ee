/** The URL path parser of pkg/apiserver/request/requestinfo.go. */
module RequestInfo {
  import opened Common
  import opened Text

  datatype Info = Info(
    path: string, verb: string, isResourceRequest: bool, isKubernetesRequest: bool,
    apiPrefix: string, apiGroup: string, apiVersion: string,
    cluster: string, workspace: string, namespace: string, devops: string,
    resource: string, name: string, subresource: string, parts: seq<string>, scope: string)

  /** The list options decoded from the URL query. */
  datatype Options = Decoded(watch: bool, exactName: Option<string>) | Undecodable

  datatype Request = Request(path: string, verb: string, options: Options, watchParam: seq<string>,
                             labelSelector: string)

  /** `validName` is the path-segment check of the Kubernetes libraries. */
  datatype Factory = Factory(apiPrefixes: set<string>, groupless: set<string>,
                             globalResources: set<(string, string)>, validName: string -> bool)

  /** A parsed request, an error with the information so far, or an index out of range. */
  datatype Outcome = Parsed(info: Info) | Failed(info: Info) | Panicked

  const SPECIAL_VERBS := {"proxy", "watch"}
  const NAMESPACE_SUBRESOURCES := {"status", "finalize"}
  const KUBERNETES_PREFIXES := {"api", "apis"}
  const WORKSPACE_SELECTOR := "kubesphere.io/workspace="
  const SLASH: char -> bool := c => c == '/'

  function SplitPath(path: string): seq<string> {
    var p := Trim(path, SLASH);
    if p == "" then [] else Split(p, '/')
  }

  /** The verb that an HTTP method stands for. */
  ghost predicate StandsFor(httpMethod: string, verb: string) {
    && (httpMethod == "POST" ==> verb == "create")
    && (httpMethod in {"GET", "HEAD"} ==> verb == "get")
    && (httpMethod == "PUT" ==> verb == "update")
    && (httpMethod == "PATCH" ==> verb == "patch")
    && (httpMethod == "DELETE" ==> verb == "delete")
    && (httpMethod !in {"POST", "GET", "HEAD", "PUT", "PATCH", "DELETE"} ==> verb == "")
  }

  function VerbOf(httpMethod: string): (verb: string)
    ensures StandsFor(httpMethod, verb)
  {
    if httpMethod == "POST" then "create"
    else if httpMethod == "GET" || httpMethod == "HEAD" then "get"
    else if httpMethod == "PUT" then "update"
    else if httpMethod == "PATCH" then "patch"
    else if httpMethod == "DELETE" then "delete"
    else ""
  }

  /** The value after `word` when `parts` starts with it, and what is left to parse. */
  function TakePair(word: string, parts: seq<string>): (string, seq<string>)
    requires parts != []
  {
    if parts[0] != word then ("", parts)
    else (if |parts| > 1 then parts[1] else "", if |parts| > 2 then parts[2..] else parts)
  }

  /** Namespace, DevOps project and rest. */
  function TakeScope(parts: seq<string>): (string, string, seq<string>)
    requires parts != []
  {
    if parts[0] == "namespaces" then
      if |parts| == 1 then ("", "", parts)
      else (parts[1], "", if |parts| > 2 && parts[2] !in NAMESPACE_SUBRESOURCES then parts[2..] else parts)
    else if parts[0] == "devops" then
      if |parts| == 1 then ("", "", parts)
      else ("", parts[1], if |parts| > 2 then parts[2..] else parts)
    else ("", "", parts)
  }

  function ScopeOf(r: Factory, i: Info): string {
    if (i.apiGroup, i.resource) in r.globalResources then "Global"
    else if i.namespace != "" then "Namespace"
    else if i.devops != "" then "DevOps"
    else if i.workspace != "" then "Workspace"
    else "Cluster"
  }

  function Lower(s: string): string {
    if s == "" then "" else [if 'A' <= s[0] <= 'Z' then s[0] - 'A' + 'a' else s[0]] + Lower(s[1..])
  }

  predicate Watching(req: Request) {
    match req.options
    case Decoded(watch, _) => watch
    case Undecodable => req.watchParam != [] && Lower(req.watchParam[0]) !in {"false", "0"}
  }

  /** The name a field selector pins down, if it is a valid path segment. */
  function SelectedName(r: Factory, req: Request): string {
    match req.options
    case Decoded(_, Some(n)) => if r.validName(n) then n else ""
    case _ => ""
  }

  /** The adjustments after the path has been read. */
  function Finish(r: Factory, req: Request, i: Info): Info {
    var i1 := if i.name == "" && i.verb == "get"
              then i.(verb := if Watching(req) then "watch" else "list", name := SelectedName(r, req)) else i;
    var i2 := if i1.verb == "watch" && HasPrefix(req.labelSelector, WORKSPACE_SELECTOR)
              then i1.(workspace := req.labelSelector[|WORKSPACE_SELECTOR|..], scope := "Workspace") else i1;
    if i2.name == "" && i2.verb == "delete" then i2.(verb := "deletecollection") else i2
  }

  /** What the adjustments come to: one case for each field they may change. */
  ghost predicate Finished(r: Factory, req: Request, i: Info, j: Info) {
    var listed := i.name == "" && i.verb == "get";
    var moved := j.verb == "watch" && HasPrefix(req.labelSelector, WORKSPACE_SELECTOR);
    && j.name == (if listed then SelectedName(r, req) else i.name)
    && j.verb == (if listed then if Watching(req) then "watch" else "list"
                  else if i.name == "" && i.verb == "delete" then "deletecollection" else i.verb)
    && j.workspace == (if moved then req.labelSelector[|WORKSPACE_SELECTOR|..] else i.workspace)
    && j.scope == (if moved then "Workspace" else i.scope)
    && j == i.(name := j.name, verb := j.verb, workspace := j.workspace, scope := j.scope)
  }

  lemma FinishFinishes(r: Factory, req: Request, i: Info)
    ensures Finished(r, req, i, Finish(r, req, i))
  {
    hide Watching, SelectedName;
  }

  lemma FinishedOnce(r: Factory, req: Request, i: Info, j: Info, k: Info)
    requires Finished(r, req, i, j) && Finished(r, req, i, k)
    ensures j == k
  {
    hide Watching, SelectedName;
  }

  /** Those cases, together with "and nothing else changes", say exactly what the adjustments do. */
  lemma FinishMeaning(r: Factory, req: Request, i: Info, j: Info)
    ensures Finished(r, req, i, j) <==> j == Finish(r, req, i)
  {
    hide Finish, Finished;
    FinishFinishes(r, req, i);
    if Finished(r, req, i, j) {
      FinishedOnce(r, req, i, j, Finish(r, req, i));
    }
  }

  /** The deferred function. */
  function Deferred(i: Info): Info {
    var segments := SplitPath(i.path);
    var prefix := if i.apiPrefix == "" && 0 < |segments| < 3 then segments[0] else i.apiPrefix;
    if prefix in KUBERNETES_PREFIXES then i.(isKubernetesRequest := true) else i
  }

  function Blank(req: Request): Info {
    Info(req.path, req.verb, false, false, "", "", "", "", "", "", "", "", "", "", [], "")
  }

  /** Resource, name and subresource from the remaining parts. */
  function Named(r: Factory, req: Request, i: Info, parts: seq<string>): Info
    requires parts != []
  {
    var i1 := i.(parts := parts);
    Finish(r, req, i1.(scope := ScopeOf(r, i1),
                       resource := parts[0],
                       name := if |parts| >= 2 then parts[1] else "",
                       subresource := if |parts| >= 3 && i.verb != "proxy" then parts[2] else ""))
  }

  /** After the API version. */
  function AfterVersion(r: Factory, req: Request, i: Info, parts: seq<string>): Outcome {
    var special := parts != [] && parts[0] in SPECIAL_VERBS;
    if special && |parts| < 2 then Failed(i)
    else
      var rest := if special then parts[1..] else parts;
      if rest == [] then Panicked
      else
        var (workspace, p1) := TakePair("workspaces", rest);
        var (namespace, devops, p2) := TakeScope(p1);
        Parsed(Named(r, req, i.(verb := if special then parts[0] else VerbOf(req.verb),
                                workspace := workspace, namespace := namespace, devops := devops), p2))
  }

  function Resolve(r: Factory, req: Request): Outcome {
    var parts, i := SplitPath(req.path), Blank(req);
    if |parts| < 3 || parts[0] !in r.apiPrefixes then Parsed(i)
    else
      var (cluster, p1) := TakePair("clusters", parts[1..]);
      var i1 := i.(apiPrefix := parts[0], cluster := cluster);
      if parts[0] in r.groupless then
        AfterVersion(r, req, i1.(isResourceRequest := true, apiVersion := p1[0]), p1[1..])
      else if |p1| < 3 then Parsed(i1)
      else
        AfterVersion(r, req, i1.(apiGroup := p1[0], isResourceRequest := true, apiVersion := p1[1]), p1[2..])
  }

  function Outward(o: Outcome): Outcome {
    match o
    case Parsed(i) => Parsed(Deferred(i))
    case Failed(i) => Failed(Deferred(i))
    case Panicked => Panicked
  }

  // ----- The method

  method NewRequestInfo(r: Factory, req: Request) returns (out: Outcome)
    ensures out == Outward(Resolve(r, req))
  {
    var info := Blank(req);
    var currentParts := SplitPath(req.path);
    if |currentParts| < 3 {
      return Parsed(Deferred(info));
    }
    if currentParts[0] !in r.apiPrefixes {
      return Parsed(Deferred(info));
    }
    info := info.(apiPrefix := currentParts[0]);
    currentParts := currentParts[1..];
    if currentParts[0] == "clusters" {
      if |currentParts| > 1 {
        info := info.(cluster := currentParts[1]);
      }
      if |currentParts| > 2 {
        currentParts := currentParts[2..];
      }
    }
    if info.apiPrefix !in r.groupless {
      if |currentParts| < 3 {
        return Parsed(Deferred(info));
      }
      info := info.(apiGroup := currentParts[0]);
      currentParts := currentParts[1..];
    }
    info := info.(isResourceRequest := true, apiVersion := currentParts[0]);
    currentParts := currentParts[1..];
    out := ParseResource(r, req, info, currentParts);
  }

  method ParseResource(r: Factory, req: Request, before: Info, parts: seq<string>) returns (out: Outcome)
    requires before.path == req.path && before.workspace == before.namespace == before.devops == ""
    requires before.resource == before.name == before.subresource == ""
    ensures out == Outward(AfterVersion(r, req, before, parts))
  {
    hide Named, Deferred, VerbOf, TakeScope;
    var info, currentParts := before, parts;
    if |currentParts| > 0 && currentParts[0] in SPECIAL_VERBS {
      if |currentParts| < 2 {
        return Failed(Deferred(info));
      }
      info := info.(verb := currentParts[0]);
      currentParts := currentParts[1..];
    } else {
      info := info.(verb := VerbOf(req.verb));
    }
    if |currentParts| == 0 {
      return Panicked;
    }
    if currentParts[0] == "workspaces" {
      if |currentParts| > 1 {
        info := info.(workspace := currentParts[1]);
      }
      if |currentParts| > 2 {
        currentParts := currentParts[2..];
      }
    }
    info, currentParts := ParseScope(info, currentParts);
    info := NameResource(r, req, info, currentParts);
    return Parsed(Deferred(info));
  }

  method ParseScope(before: Info, parts: seq<string>) returns (info: Info, currentParts: seq<string>)
    requires parts != [] && before.namespace == before.devops == ""
    ensures currentParts != [] && (info.namespace, info.devops, currentParts) == TakeScope(parts)
    ensures info == before.(namespace := info.namespace, devops := info.devops)
  {
    info, currentParts := before, parts;
    if currentParts[0] == "namespaces" {
      if |currentParts| > 1 {
        info := info.(namespace := currentParts[1]);
        if |currentParts| > 2 && currentParts[2] !in NAMESPACE_SUBRESOURCES {
          currentParts := currentParts[2..];
        }
      }
    } else if currentParts[0] == "devops" {
      if |currentParts| > 1 {
        info := info.(devops := currentParts[1]);
        if |currentParts| > 2 {
          currentParts := currentParts[2..];
        }
      }
    } else {
      info := info.(namespace := "", devops := "");
    }
  }

  method NameResource(r: Factory, req: Request, before: Info, currentParts: seq<string>) returns (info: Info)
    requires currentParts != [] && before.resource == before.name == before.subresource == ""
    ensures info == Named(r, req, before, currentParts)
  {
    hide Finish;
    info := before.(parts := currentParts);
    info := info.(scope := ScopeOf(r, info));
    if |info.parts| >= 3 && info.verb != "proxy" {
      info := info.(subresource := info.parts[2]);
    }
    if |info.parts| >= 2 {
      info := info.(name := info.parts[1]);
    }
    info := info.(resource := info.parts[0]);
    ghost var named := info;
    info := FinishRequest(r, req, info);
    FinishMeaning(r, req, named, info);
  }

  method FinishRequest(r: Factory, req: Request, before: Info) returns (info: Info)
    ensures Finished(r, req, before, info)
  {
    info := before;
    if info.name == "" && info.verb == "get" {
      info := info.(verb := if Watching(req) then "watch" else "list");
      info := info.(name := SelectedName(r, req));
    }
    if info.verb == "watch" && HasPrefix(req.labelSelector, WORKSPACE_SELECTOR) {
      info := info.(workspace := req.labelSelector[|WORKSPACE_SELECTOR|..], scope := "Workspace");
    }
    if info.name == "" && info.verb == "delete" {
      info := info.(verb := "deletecollection");
    }
  }

  // ----- What holds of every request

  ghost predicate SuffixOf(s: seq<string>, t: seq<string>) {
    |s| <= |t| && s == t[|t| - |s|..]
  }

  lemma SuffixTrans(s: seq<string>, t: seq<string>, u: seq<string>)
    requires SuffixOf(s, t) && SuffixOf(t, u)
    ensures SuffixOf(s, u)
  {
  }

  /** The one panic: a groupless prefix followed by exactly a cluster pair and a version. */
  lemma PanicsIff(r: Factory, req: Request)
    ensures var parts := SplitPath(req.path);
            Resolve(r, req).Panicked? <==>
              |parts| == 4 && parts[0] in r.apiPrefixes && parts[0] in r.groupless && parts[1] == "clusters"
  {
  }

  lemma {:induction false} TrimLeftFirst(s: string)
    ensures var t := TrimLeft(s, SLASH); t != "" ==> t[0] != '/'
    decreases |s|
  {
    if s != [] && SLASH(s[0]) {
      TrimLeftFirst(s[1..]);
    }
  }

  lemma {:induction false} TrimRightKeepsFirst(s: string)
    ensures var t := TrimRight(s, SLASH); t != "" ==> s != "" && t[0] == s[0]
    decreases |s|
  {
    if s != [] && SLASH(s[|s| - 1]) {
      TrimRightKeepsFirst(s[..|s| - 1]);
    }
  }

  lemma FirstSegmentNonEmpty(path: string)
    ensures SplitPath(path) != [] ==> SplitPath(path)[0] != ""
  {
    TrimLeftFirst(path);
    TrimRightKeepsFirst(TrimLeft(path, SLASH));
  }

  /** Finishing touches neither the path nor what was read from its front. */
  ghost predicate SameFront(i: Info, j: Info) {
    && i.path == j.path && i.apiPrefix == j.apiPrefix && i.cluster == j.cluster
    && i.isKubernetesRequest == j.isKubernetesRequest && i.isResourceRequest == j.isResourceRequest
    && i.parts == j.parts && i.namespace == j.namespace && i.devops == j.devops && i.resource == j.resource
  }

  lemma FinishFacts(r: Factory, req: Request, i: Info)
    ensures var j := Finish(r, req, i); SameFront(i, j) && (j.name == "" ==> j.verb != "get" && j.verb != "delete")
  {
  }

  lemma NamedFacts(r: Factory, req: Request, i: Info, parts: seq<string>)
    requires parts != []
    ensures var j := Named(r, req, i, parts);
            && SameFront(i.(parts := parts, resource := parts[0]), j)
            && (j.name == "" ==> j.verb != "get" && j.verb != "delete")
  {
    hide Finish;
    var i1 := i.(parts := parts);
    FinishFacts(r, req, i1.(scope := ScopeOf(r, i1),
                            resource := parts[0],
                            name := if |parts| >= 2 then parts[1] else "",
                            subresource := if |parts| >= 3 && i.verb != "proxy" then parts[2] else ""));
  }

  lemma PairSuffix(word: string, parts: seq<string>)
    requires parts != []
    ensures var rest := TakePair(word, parts).1; rest != [] && SuffixOf(rest, parts)
  {
  }

  lemma ScopeSuffix(parts: seq<string>)
    requires parts != []
    ensures var (namespace, devops, rest) := TakeScope(parts);
            rest != [] && SuffixOf(rest, parts) && (namespace == "" || devops == "")
  {
  }

  ghost predicate ResourceFacts(i: Info, segments: seq<string>) {
    && i.parts != [] && SuffixOf(i.parts, segments)
    && (i.namespace == "" || i.devops == "")
    && (i.name == "" ==> i.verb != "get" && i.verb != "delete")
    && i.resource == i.parts[0]
  }

  lemma AfterVersionFacts(r: Factory, req: Request, i: Info, parts: seq<string>)
    ensures var o := AfterVersion(r, req, i, parts);
            && (!o.Panicked? ==> o.info.path == i.path && o.info.apiPrefix == i.apiPrefix
                                 && o.info.isKubernetesRequest == i.isKubernetesRequest
                                 && o.info.isResourceRequest == i.isResourceRequest)
            && (o.Failed? <==> |parts| == 1 && parts[0] in {"proxy", "watch"})
            && (o.Panicked? <==> parts == [])
            && (o.Parsed? ==> ResourceFacts(o.info, parts))
  {
    hide Named, TakePair, TakeScope;
    var special := parts != [] && parts[0] in SPECIAL_VERBS;
    var rest := if special then parts[1..] else parts;
    if rest != [] {
      PairSuffix("workspaces", rest);
      var (workspace, p1) := TakePair("workspaces", rest);
      ScopeSuffix(p1);
      var (namespace, devops, p2) := TakeScope(p1);
      NamedFacts(r, req, i.(verb := if special then parts[0] else VerbOf(req.verb),
                            workspace := workspace, namespace := namespace, devops := devops), p2);
      SuffixTrans(p2, p1, rest);
      SuffixTrans(p2, rest, parts);
    }
  }

  /** What is left of the segments behind the prefix once a cluster pair has been taken off. */
  ghost function BehindCluster(parts: seq<string>): seq<string>
    requires |parts| >= 3
  {
    if parts[1] == "clusters" && |parts| > 3 then parts[3..] else parts[1..]
  }

  /**
    Which exit is taken. A request is about a resource when its prefix is known, and enough
    segments are left for a version, a group where there is one, and a resource; it is refused when
    "proxy" or "watch" ends the path there.
   */
  lemma ExitsIff(r: Factory, req: Request)
    ensures var parts := SplitPath(req.path);
            var known := |parts| >= 3 && parts[0] in r.apiPrefixes;
            var first := if known && parts[0] !in r.groupless then 2 else 1;
            var left := if known then BehindCluster(parts) else [];
            && (Resolve(r, req).Failed? <==> |left| == first + 1 && left[first] in {"proxy", "watch"})
            && (Resolve(r, req).Panicked? <==> |left| == first == 1)
            && (Resolve(r, req).Parsed? ==> (Resolve(r, req).info.isResourceRequest <==> |left| > first))
  {
    hide AfterVersion, SplitPath;
    var parts := SplitPath(req.path);
    if |parts| >= 3 && parts[0] in r.apiPrefixes {
      var (cluster, p1) := TakePair("clusters", parts[1..]);
      assert p1 == BehindCluster(parts);
      var i := Blank(req).(apiPrefix := parts[0], cluster := cluster);
      if parts[0] in r.groupless {
        AfterVersionFacts(r, req, i.(isResourceRequest := true, apiVersion := p1[0]), p1[1..]);
      } else if |p1| >= 3 {
        AfterVersionFacts(r, req, i.(apiGroup := p1[0], isResourceRequest := true, apiVersion := p1[1]), p1[2..]);
      }
    }
  }

  /** At every return the request counts as a Kubernetes one iff its first segment says so. */
  lemma KubernetesIff(r: Factory, req: Request)
    requires {"api", "apis"} <= r.apiPrefixes
    requires !Resolve(r, req).Panicked?
    ensures var parts := SplitPath(req.path);
            Outward(Resolve(r, req)).info.isKubernetesRequest <==> parts != [] && parts[0] in {"api", "apis"}
  {
    hide AfterVersion, TakePair, SplitPath;
    FirstSegmentNonEmpty(req.path);
    var parts := SplitPath(req.path);
    if |parts| >= 3 && parts[0] in r.apiPrefixes {
      PairSuffix("clusters", parts[1..]);
      var (cluster, p1) := TakePair("clusters", parts[1..]);
      var i1 := Blank(req).(apiPrefix := parts[0], cluster := cluster);
      if parts[0] in r.groupless {
        AfterVersionFacts(r, req, i1.(isResourceRequest := true, apiVersion := p1[0]), p1[1..]);
      } else if |p1| >= 3 {
        AfterVersionFacts(r, req, i1.(apiGroup := p1[0], isResourceRequest := true, apiVersion := p1[1]), p1[2..]);
      }
    }
  }

  /** What every successfully parsed resource request satisfies. */
  lemma ParsedResourceFacts(r: Factory, req: Request)
    requires Resolve(r, req).Parsed? && Resolve(r, req).info.isResourceRequest
    ensures ResourceFacts(Outward(Resolve(r, req)).info, SplitPath(req.path))
  {
    hide AfterVersion, TakePair, SplitPath;
    var parts := SplitPath(req.path);
    PairSuffix("clusters", parts[1..]);
    var (cluster, p1) := TakePair("clusters", parts[1..]);
    var i1 := Blank(req).(apiPrefix := parts[0], cluster := cluster);
    SuffixTrans(p1, parts[1..], parts);
    var found := Resolve(r, req).info.parts;
    if parts[0] in r.groupless {
      AfterVersionFacts(r, req, i1.(isResourceRequest := true, apiVersion := p1[0]), p1[1..]);
      SuffixTrans(p1[1..], p1, parts);
      SuffixTrans(found, p1[1..], parts);
    } else {
      AfterVersionFacts(r, req, i1.(apiGroup := p1[0], isResourceRequest := true, apiVersion := p1[1]), p1[2..]);
      SuffixTrans(p1[2..], p1, parts);
      SuffixTrans(found, p1[2..], parts);
    }
  }

  // ----- Inserting a cluster

  function WithCluster(o: Outcome, cluster: string, path: string): Outcome {
    match o
    case Parsed(i) => Parsed(i.(cluster := cluster, path := path))
    case Failed(i) => Failed(i.(cluster := cluster, path := path))
    case Panicked => Panicked
  }

  function Relabel(i: Info, c: string, path: string): Info {
    i.(cluster := c, path := path)
  }

  lemma PathNotAsked(r: Factory, req: Request, req': Request)
    requires req' == req.(path := req'.path)
    ensures Watching(req') == Watching(req) && SelectedName(r, req') == SelectedName(r, req)
  {
  }

  lemma FinishRelabels(r: Factory, req: Request, req': Request, i: Info, c: string)
    requires req' == req.(path := req'.path)
    ensures Finish(r, req', Relabel(i, c, req'.path)) == Relabel(Finish(r, req, i), c, req'.path)
  {
    hide Watching, SelectedName, Finish;
    PathNotAsked(r, req, req');
    FinishMeaning(r, req, i, Finish(r, req, i));
    FinishMeaning(r, req', Relabel(i, c, req'.path), Relabel(Finish(r, req, i), c, req'.path));
  }

  lemma NamedRelabels(r: Factory, req: Request, req': Request, i: Info, parts: seq<string>, c: string)
    requires req' == req.(path := req'.path) && parts != []
    ensures Named(r, req', Relabel(i, c, req'.path), parts) == Relabel(Named(r, req, i, parts), c, req'.path)
  {
    hide Finish;
    var i1 := i.(parts := parts);
    FinishRelabels(r, req, req', i1.(scope := ScopeOf(r, i1),
                                     resource := parts[0],
                                     name := if |parts| >= 2 then parts[1] else "",
                                     subresource := if |parts| >= 3 && i.verb != "proxy" then parts[2] else ""), c);
  }

  lemma AfterVersionRelabels(r: Factory, req: Request, req': Request, i: Info, parts: seq<string>, c: string)
    requires req' == req.(path := req'.path)
    ensures AfterVersion(r, req', Relabel(i, c, req'.path), parts)
         == WithCluster(AfterVersion(r, req, i, parts), c, req'.path)
  {
    hide Named, TakePair, TakeScope;
    var special := parts != [] && parts[0] in SPECIAL_VERBS;
    var rest := if special then parts[1..] else parts;
    if rest != [] {
      PairSuffix("workspaces", rest);
      var (workspace, p1) := TakePair("workspaces", rest);
      ScopeSuffix(p1);
      var (namespace, devops, p2) := TakeScope(p1);
      NamedRelabels(r, req, req', i.(verb := if special then parts[0] else VerbOf(req.verb),
                                     workspace := workspace, namespace := namespace, devops := devops), p2, c);
    }
  }

  lemma OutwardRelabels(o: Outcome, c: string, path: string)
    requires !o.Panicked? ==> o.info.apiPrefix != ""
    ensures Outward(WithCluster(o, c, path)) == WithCluster(Outward(o), c, path)
  {
  }

  /** Addressing a member cluster changes the cluster and nothing else, on every exit. */
  lemma ClusterInsertion(r: Factory, req: Request, req': Request, p: string, rest: seq<string>, c: string)
    requires req' == req.(path := req'.path)
    requires p in r.apiPrefixes && |rest| >= 2 && rest[0] != "clusters"
    requires SplitPath(req.path) == [p] + rest
    requires SplitPath(req'.path) == [p, "clusters", c] + rest
    ensures Outward(Resolve(r, req')) == WithCluster(Outward(Resolve(r, req)), c, req'.path)
  {
    hide AfterVersion, SplitPath, Outward;
    FirstSegmentNonEmpty(req.path);
    var parts, parts' := SplitPath(req.path), SplitPath(req'.path);
    assert parts[1..] == rest && parts[0] == parts'[0] == p;
    assert parts'[1..] == ["clusters", c] + rest;
    assert parts'[1..][2..] == rest;
    assert TakePair("clusters", parts'[1..]) == (c, rest) && TakePair("clusters", parts[1..]) == ("", rest);
    var i1 := Blank(req).(apiPrefix := p);
    var i2 := if p in r.groupless then i1.(isResourceRequest := true, apiVersion := rest[0])
              else if |rest| < 3 then i1
              else i1.(apiGroup := rest[0], isResourceRequest := true, apiVersion := rest[1]);
    var left := if p in r.groupless then rest[1..] else rest[2..];
    AfterVersionRelabels(r, req, req', i2, left, c);
    AfterVersionFacts(r, req, i2, left);
    OutwardRelabels(Resolve(r, req), c, req'.path);
  }
}
