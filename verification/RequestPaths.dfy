/** Rendering a resource path and parsing it again. */
module RequestPaths {
  import opened Common
  import opened Text
  import opened RequestInfo

  datatype Place = Anywhere | InNamespace(namespace: string) | InDevOps(project: string)

  /** What a resource path can say, segment by segment. */
  datatype ResourcePath = ResourcePath(
    prefix: string, cluster: Option<string>, group: Option<string>, version: string, special: Option<string>,
    workspace: Option<string>, place: Place, resource: string, name: Option<string>, subresource: Option<string>)

  function Maybe(o: Option<string>): seq<string> {
    match o
    case None => []
    case Some(x) => [x]
  }

  function Pair(word: string, o: Option<string>): seq<string> {
    match o
    case None => []
    case Some(x) => [word, x]
  }

  function PlaceParts(p: Place): seq<string> {
    match p
    case Anywhere => []
    case InNamespace(n) => ["namespaces", n]
    case InDevOps(d) => ["devops", d]
  }

  function Target(p: ResourcePath): seq<string> {
    [p.resource] + Maybe(p.name) + Maybe(p.subresource)
  }

  function Placed(p: ResourcePath): seq<string> {
    PlaceParts(p.place) + Target(p)
  }

  function InWorkspace(p: ResourcePath): seq<string> {
    Pair("workspaces", p.workspace) + Placed(p)
  }

  function Versioned(p: ResourcePath): seq<string> {
    [p.version] + (Maybe(p.special) + InWorkspace(p))
  }

  function Grouped(p: ResourcePath): seq<string> {
    Maybe(p.group) + Versioned(p)
  }

  function Segments(p: ResourcePath): seq<string> {
    [p.prefix] + (Pair("clusters", p.cluster) + Grouped(p))
  }

  function Render(p: ResourcePath): string {
    "/" + Join(Segments(p), '/')
  }

  ghost predicate SegmentsOK(segments: seq<string>) {
    AllFree(segments, '/') && forall i | 0 <= i < |segments| :: segments[i] != ""
  }

  /** A namespace, project or workspace may itself be the resource, with what its own path may carry. */
  ghost predicate PlaceItself(p: ResourcePath) {
    && (p.place.Anywhere? && p.resource == "namespaces" && p.subresource.Some? ==>
          p.subresource.value in {"status", "finalize"})
    && (p.place.Anywhere? && p.resource == "devops" ==> p.subresource.None?)
    && (p.place.InNamespace? ==> p.resource !in {"status", "finalize"})
  }

  /** The reserved words are avoided where they would be read as something else. */
  ghost predicate WellFormed(r: Factory, p: ResourcePath) {
    && SegmentsOK(Segments(p))
    && p.prefix in r.apiPrefixes
    && (p.group.None? <==> p.prefix in r.groupless)
    && (p.subresource.Some? ==> p.name.Some?)
    && (p.special.Some? ==> p.special.value in {"proxy", "watch"})
    && (p.cluster.None? ==> Grouped(p)[0] != "clusters")
    && (p.special.None? ==> InWorkspace(p)[0] !in {"proxy", "watch"})
    && (p.workspace.None? && Placed(p)[0] == "workspaces" ==> p.subresource.None?)
    && PlaceItself(p)
  }

  function Or(o: Option<string>): string {
    match o
    case None => ""
    case Some(x) => x
  }

  // ----- Splitting what was rendered

  lemma {:induction false} JoinEnds(parts: seq<string>, sep: char)
    requires parts != [] && AllFree(parts, sep) && forall i | 0 <= i < |parts| :: parts[i] != ""
    ensures var j := Join(parts, sep); j != "" && j[0] != sep && j[|j| - 1] != sep
  {
    if |parts| > 1 {
      JoinEnds(parts[1..], sep);
      var rest := Join(parts[1..], sep);
      var j := Join(parts, sep);
      assert j == parts[0] + [sep] + rest;
      assert j[|j| - 1] == rest[|rest| - 1];
      assert parts[0][0] in parts[0];
    } else {
      assert parts[0][0] in parts[0] && parts[0][|parts[0]| - 1] in parts[0];
    }
  }

  lemma RenderedSplits(segments: seq<string>)
    requires segments != [] && SegmentsOK(segments)
    ensures SplitPath("/" + Join(segments, '/')) == segments
  {
    var j := Join(segments, '/');
    JoinEnds(segments, '/');
    TrimPadded("/", j, "", SLASH);
    assert "/" + j + "" == "/" + j;
    SplitJoin(segments, '/');
  }

  // ----- Parsing it

  lemma PairTaken(word: string, o: Option<string>, rest: seq<string>)
    requires rest != [] && (o.None? ==> rest[0] != word)
    ensures Pair(word, o) + rest != [] && TakePair(word, Pair(word, o) + rest) == (Or(o), rest)
  {
    var parts := Pair(word, o) + rest;
    if o.Some? {
      assert parts[2..] == rest;
    } else {
      assert parts == rest;
    }
  }

  /** The namespace a path is in, or the one it is about. */
  function NamespaceOf(p: ResourcePath): string {
    match p.place
    case InNamespace(n) => n
    case InDevOps(_) => ""
    case Anywhere => if p.resource == "namespaces" then Or(p.name) else ""
  }

  function ProjectOf(p: ResourcePath): string {
    match p.place
    case InNamespace(_) => ""
    case InDevOps(d) => d
    case Anywhere => if p.resource == "devops" then Or(p.name) else ""
  }

  function WorkspaceOf(p: ResourcePath): string {
    match p.workspace
    case Some(w) => w
    case None => if p.place.Anywhere? && p.resource == "workspaces" then Or(p.name) else ""
  }

  lemma WorkspaceTaken(p: ResourcePath)
    requires p.workspace.None? && Placed(p)[0] == "workspaces" ==> p.subresource.None?
    requires p.subresource.Some? ==> p.name.Some?
    ensures TakePair("workspaces", InWorkspace(p)) == (WorkspaceOf(p), Placed(p))
  {
    if p.workspace.Some? || Placed(p)[0] != "workspaces" {
      PairTaken("workspaces", p.workspace, Placed(p));
      assert p.place.Anywhere? ==> Placed(p) == Target(p);
    } else {
      assert InWorkspace(p) == Placed(p) == Target(p);
    }
  }

  lemma PlaceTaken(p: ResourcePath)
    requires PlaceItself(p) && (p.subresource.Some? ==> p.name.Some?)
    ensures TakeScope(Placed(p)) == (NamespaceOf(p), ProjectOf(p), Target(p))
  {
    var parts := Placed(p);
    if p.place.Anywhere? {
      assert parts == Target(p);
      assert p.name.Some? ==> parts[1] == p.name.value;
      assert p.subresource.Some? ==> parts[2] == p.subresource.value;
    } else {
      assert parts[2..] == Target(p) && parts[2] == p.resource;
    }
  }

  /** The information the path itself carries, before list, watch and selector adjustments. */
  function FromPath(r: Factory, req: Request, p: ResourcePath): Info {
    var i := Blank(req).(apiPrefix := p.prefix, cluster := Or(p.cluster), apiGroup := Or(p.group),
                         isResourceRequest := true, apiVersion := p.version,
                         verb := if p.special.Some? then p.special.value else VerbOf(req.verb),
                         workspace := WorkspaceOf(p), namespace := NamespaceOf(p), devops := ProjectOf(p),
                         parts := Target(p));
    i.(scope := ScopeOf(r, i),
       resource := p.resource,
       name := Or(p.name),
       subresource := if p.special == Some("proxy") then "" else Or(p.subresource))
  }

  lemma VersionedParsed(r: Factory, req: Request, p: ResourcePath, i: Info)
    requires WellFormed(r, p)
    requires i == Blank(req).(apiPrefix := p.prefix, cluster := Or(p.cluster), apiGroup := Or(p.group),
                              isResourceRequest := true, apiVersion := p.version)
    ensures AfterVersion(r, req, i, Versioned(p)[1..]) == Parsed(Finish(r, req, FromPath(r, req, p)))
  {
    hide TakePair, TakeScope, Finish, ScopeOf;
    var parts := Maybe(p.special) + InWorkspace(p);
    assert Versioned(p)[1..] == parts;
    if p.special.Some? {
      assert parts[1..] == InWorkspace(p);
    } else {
      assert parts == InWorkspace(p);
    }
    WorkspaceTaken(p);
    PlaceTaken(p);
    assert VerbOf(req.verb) != "proxy";
    var t := Target(p);
    assert p.name.Some? ==> t[1] == p.name.value;
    assert p.subresource.Some? ==> t[2] == p.subresource.value;
  }

  /** Parsing a rendered path gives every field back. */
  lemma RoundTrip(r: Factory, req: Request, p: ResourcePath)
    requires WellFormed(r, p) && req.path == Render(p)
    ensures Outward(Resolve(r, req)) == Parsed(Deferred(Finish(r, req, FromPath(r, req, p))))
  {
    hide AfterVersion, Finish, FromPath, TakePair, Deferred, SplitPath;
    var segments := Segments(p);
    RenderedSplits(segments);
    assert segments[1..] == Pair("clusters", p.cluster) + Grouped(p);
    PairTaken("clusters", p.cluster, Grouped(p));
    var i := Blank(req).(apiPrefix := p.prefix, cluster := Or(p.cluster), apiGroup := Or(p.group),
                         isResourceRequest := true, apiVersion := p.version);
    VersionedParsed(r, req, p, i);
    if p.group.Some? {
      assert Grouped(p)[2..] == Versioned(p)[1..];
    } else {
      assert Grouped(p) == Versioned(p);
    }
  }

  /** The text reads "false", in small or capital letters. */
  ghost predicate ReadsFalse(s: string) {
    |s| == 5 && forall i | 0 <= i < 5 :: s[i] == "false"[i] || s[i] == "FALSE"[i]
  }

  /** A watch is asked for: by the decoded options, or by a watch parameter that does not deny it. */
  ghost predicate AsksToWatch(req: Request) {
    if req.options.Decoded? then req.options.watch
    else req.watchParam != [] && req.watchParam[0] != "0" && !ReadsFalse(req.watchParam[0])
  }

  /** The name of a request without a name in its path: pinned by the options and fit for a path, or none. */
  ghost predicate PinnedName(r: Factory, req: Request, name: string) {
    if req.options.Decoded? && req.options.exactName.Some? && r.validName(req.options.exactName.value)
    then name == req.options.exactName.value else name == ""
  }

  lemma {:induction false} LowerAt(s: string)
    ensures |Lower(s)| == |s|
    ensures forall i | 0 <= i < |s| :: Lower(s)[i] == if 'A' <= s[i] <= 'Z' then s[i] - 'A' + 'a' else s[i]
  {
    if s != "" {
      LowerAt(s[1..]);
    }
  }

  lemma LowerFalse(s: string)
    ensures Lower(s) == "false" <==> ReadsFalse(s)
    ensures Lower(s) == "0" <==> s == "0"
  {
    LowerAt(s);
    if ReadsFalse(s) {
      assert forall i | 0 <= i < 5 :: Lower(s)[i] == "false"[i];
      assert Lower(s) == "false";
    }
    if Lower(s) == "false" {
      forall i | 0 <= i < 5 ensures s[i] == "false"[i] || s[i] == "FALSE"[i] {
        assert Lower(s)[i] == "false"[i];
      }
    }
    if Lower(s) == "0" {
      assert Lower(s)[0] == '0';
      assert s == "0";
    }
  }

  lemma WatchMeaning(r: Factory, req: Request)
    ensures Watching(req) <==> AsksToWatch(req)
    ensures PinnedName(r, req, SelectedName(r, req))
  {
    if req.watchParam != [] {
      LowerFalse(req.watchParam[0]);
    }
  }

  /** The scope of a request. Whether it is global is asked for the group alone, before the resource is known. */
  ghost predicate InScope(r: Factory, p: ResourcePath, scope: string) {
    if (Or(p.group), "") in r.globalResources then scope == "Global"
    else if NamespaceOf(p) != "" then scope == "Namespace"
    else if ProjectOf(p) != "" then scope == "DevOps"
    else if WorkspaceOf(p) != "" then scope == "Workspace"
    else scope == "Cluster"
  }

  /** What a watch with a workspace label selector asks for. */
  ghost predicate WatchesWorkspace(req: Request, verb: string) {
    verb == "watch" && "kubesphere.io/workspace=" <= req.labelSelector
  }

  /** The round trip field by field, with what a name-less or watching request adds. */
  lemma RoundTripFields(r: Factory, req: Request, p: ResourcePath) returns (asked: string)
    requires WellFormed(r, p) && req.path == Render(p)
    ensures if p.special.Some? then asked == p.special.value else StandsFor(req.verb, asked)
    ensures Outward(Resolve(r, req)).Parsed?
    ensures var i := Outward(Resolve(r, req)).info;
            var listed := p.name.None? && asked == "get";
            && i.path == req.path && i.isResourceRequest
            && (i.isKubernetesRequest <==> p.prefix in {"api", "apis"})
            && i.apiPrefix == p.prefix && i.cluster == Or(p.cluster)
            && i.apiGroup == Or(p.group) && i.apiVersion == p.version
            && i.namespace == NamespaceOf(p) && i.devops == ProjectOf(p)
            && i.resource == p.resource && i.parts == Target(p)
            && i.subresource == (if p.special == Some("proxy") then "" else Or(p.subresource))
            && (if listed then PinnedName(r, req, i.name) else i.name == Or(p.name))
            && i.verb == (if listed then if AsksToWatch(req) then "watch" else "list"
                          else if p.name.None? && asked == "delete" then "deletecollection" else asked)
    ensures var i := Outward(Resolve(r, req)).info;
            if WatchesWorkspace(req, i.verb)
            then req.labelSelector == "kubesphere.io/workspace=" + i.workspace && i.scope == "Workspace"
            else i.workspace == WorkspaceOf(p) && InScope(r, p, i.scope)
  {
    hide Resolve, SplitPath, Finish, Watching, SelectedName, WellFormed;
    RoundTrip(r, req, p);
    var i := FromPath(r, req, p);
    FinishMeaning(r, req, i, Finish(r, req, i));
    WatchMeaning(r, req);
    NameGiven(r, p);
    asked := i.verb;
  }

  lemma NameGiven(r: Factory, p: ResourcePath)
    requires WellFormed(r, p)
    ensures p.name.Some? <==> Or(p.name) != ""
    ensures p.prefix != ""
  {
    assert p.name.Some? ==> p.name.value in Segments(p);
    assert Segments(p)[0] == p.prefix;
  }

  /** Inserting /clusters/{c} after the prefix of a path changes the parsed cluster and nothing else. */
  lemma ClusterInsertedInPath(r: Factory, req: Request, req': Request, p: string, rest: seq<string>, c: string)
    requires p in r.apiPrefixes && |rest| >= 2 && rest[0] != "clusters"
    requires SegmentsOK([p] + rest) && SegmentsOK([p, "clusters", c] + rest)
    requires req.path == "/" + Join([p] + rest, '/')
    requires req' == req.(path := "/" + Join([p, "clusters", c] + rest, '/'))
    ensures Outward(Resolve(r, req')) == WithCluster(Outward(Resolve(r, req)), c, req'.path)
  {
    hide Resolve, Outward, SplitPath;
    RenderedSplits([p] + rest);
    RenderedSplits([p, "clusters", c] + rest);
    ClusterInsertion(r, req, req', p, rest, c);
  }
}
