/** The hand-off of a workspace to Forge: `forge register` and `forge unregister`
    against a server every call to which may fail, with or without its effect, and a
    local link file. */
module Registration {
  import opened Wrappers

  datatype Link = Link(projectID: int, projectName: string, clusterID: int, clusterName: string,
                       mcpURL: string, restURL: string, pending: bool)

  /** The link file: absent, unreadable, or a link. */
  datatype File = Absent | Unreadable | Present(link: Link)

  datatype Cluster = Cluster(project: int, name: string, owner: string)

  /** What the server holds. Ids are handed out in increasing order, from 1. */
  datatype Server = Server(projects: map<int, string>, clusters: map<int, Cluster>, nextID: int)

  /** Beside the server and the file, a record of the past: `lost` holds the clusters
      created without a link being written, `left` those still standing when their link
      was removed. */
  datatype World = World(server: Server, file: File, lost: set<int>, left: set<int>)

  datatype Request = Request(workspace: string, dir: string, project: string, cluster: string, kubeconfig: string,
                             mcpURL: string, restURL: string)

  /** The fields Register insists on. */
  predicate Complete(req: Request) {
    req.workspace != "" && req.dir != "" && req.cluster != "" && req.kubeconfig != ""
  }

  function ProjectName(req: Request): string {
    if req.project == "" then "awsbnkctl-" + req.workspace else req.project
  }

  // ---------------------------------------------------------------------------
  // The server's side of one call
  // ---------------------------------------------------------------------------

  /** How create_project answers; a failing call may have landed all the same. */
  datatype ProjectReply = Created | Conflict | Refused(landed: bool)

  /** How create_cluster answers. */
  datatype ClusterReply = Made | NotMade(landed: bool)

  /** The replies one Register run meets; `listed` is the order in which the server
      lists its projects. */
  datatype RegisterReplies = RegisterReplies(
    getOk: bool, project: ProjectReply, listOk: bool, listed: seq<int>,
    cluster: ClusterReply, rollback: Deletion, cascade: bool, writeOk: bool)

  /** The replies one Unregister run meets. */
  datatype UnregisterReplies = UnregisterReplies(cluster: Deletion, project: Deletion, cascade: bool, removeOk: bool)

  function AddProject(s: Server, name: string): Server {
    s.(projects := s.projects[s.nextID := name], nextID := s.nextID + 1)
  }

  function AddCluster(s: Server, c: Cluster): Server {
    s.(clusters := s.clusters[s.nextID := c], nextID := s.nextID + 1)
  }

  /** Deleting a project; a server may or may not take its clusters along. */
  function DropProject(s: Server, id: int, cascade: bool): Server {
    s.(projects := s.projects - {id},
       clusters :=
         if cascade then map c | c in s.clusters && s.clusters[c].project != id :: s.clusters[c] else s.clusters)
  }

  function DropCluster(s: Server, id: int): Server {
    s.(clusters := s.clusters - {id})
  }

  function Lower(s: string): string {
    seq(|s|, i requires 0 <= i < |s| => if 'A' <= s[i] <= 'Z' then s[i] + ('a' - 'A') else s[i])
  }

  /** Equal but for the case of ASCII letters. */
  predicate SameName(a: string, b: string) {
    |a| == |b| && forall i :: 0 <= i < |a| ==> SameLetter(a[i], b[i]) || SameLetter(b[i], a[i])
  }

  predicate SameLetter(c: char, d: char) {
    c == d || ('A' <= c <= 'Z' && d as int == c as int + 32)
  }

  lemma LowerMeans(a: string, b: string)
    ensures Lower(a) == Lower(b) <==> SameName(a, b)
  {
    if Lower(a) == Lower(b) {
      assert |Lower(a)| == |a| && |Lower(b)| == |b|;
      forall i | 0 <= i < |a| ensures SameLetter(a[i], b[i]) || SameLetter(b[i], a[i]) {
        assert Lower(a)[i] == Lower(b)[i];
      }
    }
  }

  /** The first listed project of that name, letter case ignored. */
  function FindProject(s: Server, listed: seq<int>, name: string): (r: Option<int>)
    ensures r.Some? ==> r.value in s.projects && Lower(s.projects[r.value]) == Lower(name)
    ensures r.None? ==> forall id :: id in listed && id in s.projects ==> Lower(s.projects[id]) != Lower(name)
  {
    if listed == [] then None
    else if listed[0] in s.projects && Lower(s.projects[listed[0]]) == Lower(name) then Some(listed[0])
    else FindProject(s, listed[1..], name)
  }

  // ---------------------------------------------------------------------------
  // What Register and Unregister do
  // ---------------------------------------------------------------------------

  datatype RegisterResult =
    | Invalid
    | Linked(link: Link, refreshed: bool)
    | StaleLink(link: Link)
    | ReadFailed
    | ProjectFailed
    | ClusterFailed
    | WriteFailed(link: Link)

  function Registered(f: File): bool {
    f.Present? && !f.link.pending
  }

  /** refreshLinkURLs: an empty URL in use leaves the recorded one alone. */
  function Refreshed(l: Link, mcpURL: string, restURL: string): Link {
    l.(mcpURL := if mcpURL == "" then l.mcpURL else mcpURL, restURL := if restURL == "" then l.restURL else restURL)
  }

  datatype Project = Project(id: int, name: string, ours: bool)

  /** The project step: where the project comes from, and the server afterwards. */
  function ResolveProject(s: Server, req: Request, r: RegisterReplies): (Option<Project>, Server) {
    match r.project
    case Created => (Some(Project(s.nextID, ProjectName(req), true)), AddProject(s, ProjectName(req)))
    case Refused(landed) => (None, if landed then AddProject(s, ProjectName(req)) else s)
    case Conflict =>
      var found := if r.listOk then FindProject(s, r.listed, ProjectName(req)) else None;
      (if found.Some? then Some(Project(found.value, s.projects[found.value], false)) else None, s)
  }

  /** The cluster step in project p on server s. */
  function ClusterStep(w: World, p: Project, s: Server, req: Request, r: RegisterReplies): (World, RegisterResult) {
    var id, s' := s.nextID, AddCluster(s, Cluster(p.id, req.cluster, req.workspace));
    if r.cluster.Made? then
      var link := Link(p.id, p.name, id, req.cluster, req.mcpURL, req.restURL, false);
      if r.writeOk then (w.(server := s', file := Present(link)), Linked(link, false))
      else (w.(server := s', lost := w.lost + {id}), WriteFailed(link))
    else
      var s1 := if r.cluster.landed then s' else s;
      var s2 := if p.ours && r.rollback.Applied() then DropProject(s1, p.id, r.cascade) else s1;
      (w.(server := s2, lost := if id in s2.clusters then w.lost + {id} else w.lost), ClusterFailed)
  }

  function RegisterStep(w: World, req: Request, r: RegisterReplies): (World, RegisterResult) {
    if !Complete(req) then (w, Invalid)
    else if Registered(w.file) then
      var link := w.file.link;
      if !r.getOk || link.clusterID !in w.server.clusters then (w, StaleLink(link))
      else
        var link' := Refreshed(link, req.mcpURL, req.restURL);
        if link' == link then (w, Linked(link, false))
        else if r.writeOk then (w.(file := Present(link')), Linked(link', true))
        else (w, WriteFailed(link'))
    else if w.file.Unreadable? then (w, ReadFailed)
    else
      var (p, s) := ResolveProject(w.server, req, r);
      if p.None? then (w.(server := s), ProjectFailed) else ClusterStep(w, p.value, s, req, r)
  }

  datatype UnregisterResult = Dropped | NoLink | ClusterKept | ProjectKept | LinkKept

  function UnregisterStep(w: World, purge: bool, r: UnregisterReplies): (World, UnregisterResult) {
    if !w.file.Present? then (w, NoLink)
    else
      var link := w.file.link;
      var s := if r.cluster.Applied() then DropCluster(w.server, link.clusterID) else w.server;
      if !r.cluster.Tolerated() then (w.(server := s), ClusterKept)
      else
        var s' := if purge && r.project.Applied() then DropProject(s, link.projectID, r.cascade) else s;
        if purge && !r.project.Tolerated() then (w.(server := s'), ProjectKept)
        else if !r.removeOk then (w.(server := s'), LinkKept)
        else
          var left := if !link.pending && link.clusterID in s'.clusters then w.left + {link.clusterID} else w.left;
          (w.(server := s', file := Absent, left := left), Dropped)
  }

  // ---------------------------------------------------------------------------
  // The code
  // ---------------------------------------------------------------------------

  /** One workspace: the server it talks to and its link file. */
  class Workspace {
    var server: Server
    var file: File
    ghost var lost: set<int>
    ghost var left: set<int>

    constructor (server: Server, file: File)
      ensures State() == World(server, file, {}, {})
    {
      this.server, this.file, this.lost, this.left := server, file, {}, {};
    }

    ghost function State(): World
      reads this
    {
      World(server, file, lost, left)
    }

    method CreateProject(name: string, reply: ProjectReply) returns (id: int)
      modifies `server
      ensures reply.Created? ==> id == old(server).nextID
      ensures server ==
        if reply == Conflict || reply == Refused(false) then old(server) else AddProject(old(server), name)
    {
      id := server.nextID;
      if reply.Created? || (reply.Refused? && reply.landed) {
        server := AddProject(server, name);
      }
    }

    /** The second half of Register, in project p. */
    method CreateCluster(p: Project, req: Request, r: RegisterReplies) returns (res: RegisterResult)
      modifies this
      ensures (State(), res) == ClusterStep(old(State()), p, old(server), req, r)
    {
      var clusterID := server.nextID;
      if r.cluster.Made? || r.cluster.landed {
        server := AddCluster(server, Cluster(p.id, req.cluster, req.workspace));
      }
      if r.cluster.NotMade? {
        if p.ours && r.rollback.Applied() {
          server := DropProject(server, p.id, r.cascade);
        }
        if clusterID in server.clusters {
          lost := lost + {clusterID};
        }
        return ClusterFailed;
      }
      var link := Link(p.id, p.name, clusterID, req.cluster, req.mcpURL, req.restURL, false);
      if !r.writeOk {
        lost := lost + {clusterID};
        return WriteFailed(link);
      }
      file := Present(link);
      return Linked(link, false);
    }

    method Register(req: Request, r: RegisterReplies) returns (res: RegisterResult)
      modifies this
      ensures (State(), res) == RegisterStep(old(State()), req, r)
    {
      if req.workspace == "" || req.dir == "" || req.cluster == "" || req.kubeconfig == "" {
        return Invalid;
      }
      var project := req.project;
      if project == "" {
        project := "awsbnkctl-" + req.workspace;
      }
      if file.Present? && !file.link.pending {
        var existing := file.link;
        if !(r.getOk && existing.clusterID in server.clusters) {
          return StaleLink(existing);
        }
        var changed := false;
        var link := existing;
        if req.mcpURL != "" && link.mcpURL != req.mcpURL {
          link, changed := link.(mcpURL := req.mcpURL), true;
        }
        if req.restURL != "" && link.restURL != req.restURL {
          link, changed := link.(restURL := req.restURL), true;
        }
        if changed {
          if !r.writeOk {
            return WriteFailed(link);
          }
          file := Present(link);
        }
        return Linked(link, changed);
      }
      if file.Unreadable? {
        return ReadFailed;
      }

      var projectID, projectName, createdProject := 0, "", false;
      var created := CreateProject(project, r.project);
      if r.project.Created? {
        projectID, projectName, createdProject := created, project, true;
      } else {
        var found := None;
        if r.project.Conflict? && r.listOk {
          found := FindProject(server, r.listed, project);
        }
        if found.None? {
          return ProjectFailed;
        }
        projectID, projectName := found.value, server.projects[found.value];
      }

      res := CreateCluster(Project(projectID, projectName, createdProject), req, r);
    }

    method Unregister(purge: bool, r: UnregisterReplies) returns (res: UnregisterResult)
      modifies this
      ensures (State(), res) == UnregisterStep(old(State()), purge, r)
    {
      if !file.Present? {
        return NoLink;
      }
      var link := file.link;
      if r.cluster.Applied() {
        server := DropCluster(server, link.clusterID);
      }
      if !r.cluster.Tolerated() {
        return ClusterKept;
      }
      if purge {
        if r.project.Applied() {
          server := DropProject(server, link.projectID, r.cascade);
        }
        if !r.project.Tolerated() {
          return ProjectKept;
        }
      }
      if !r.removeOk {
        return LinkKept;
      }
      if !link.pending && link.clusterID in server.clusters {
        left := left + {link.clusterID};
      }
      file := Absent;
      return Dropped;
    }
  }

  // ---------------------------------------------------------------------------
  // Runs
  // ---------------------------------------------------------------------------

  /** What can happen to the world of a workspace. `Outside` is anything other
      operators do on the server; `MarkPending` is the soft failure of the provisioning
      phase. */
  datatype Op =
    | DoRegister(req: Request, replies: RegisterReplies)
    | DoUnregister(purge: bool, undo: UnregisterReplies)
    | MarkPending(writeOk: bool)
    | Outside(server: Server)

  function Owned(s: Server, ws: string): set<int> {
    set id | id in s.clusters && s.clusters[id].owner == ws
  }

  /** The operation is one this workspace's world can see. Others may delete clusters of
      this workspace, but not make new ones in its name, and ids are not reused. */
  predicate Admissible(w: World, ws: string, op: Op) {
    match op
    case DoRegister(req, _) => req.workspace == ws
    case DoUnregister(_, _) => true
    case MarkPending(_) => !Registered(w.file)
    case Outside(s) =>
      && s.nextID >= w.server.nextID && Sane(s)
      && Owned(s, ws) == Owned(w.server, ws) * s.clusters.Keys
      && (forall id :: id in s.clusters && id < w.server.nextID ==> id in w.server.clusters)
  }

  function Apply(w: World, op: Op): World {
    match op
    case DoRegister(req, r) => RegisterStep(w, req, r).0
    case DoUnregister(purge, r) => UnregisterStep(w, purge, r).0
    case MarkPending(ok) => if ok then w.(file := Present(Link(0, "", 0, "", "", "", true))) else w
    case Outside(s) => w.(server := s)
  }

  /** Ids in use are positive and below the next fresh one. */
  predicate Sane(s: Server) {
    && s.nextID > 0
    && (forall id :: id in s.projects ==> 0 < id < s.nextID)
    && (forall id :: id in s.clusters ==> 0 < id < s.nextID && s.clusters[id].project < s.nextID)
  }

  function LinkedIDs(f: File): set<int> {
    if Registered(f) then {f.link.clusterID} else {}
  }

  /** The owned clusters are exactly those still standing among the linked one, the lost
      ones and the left ones, and no cluster is two of these. */
  predicate Inv(w: World, ws: string) {
    && Sane(w.server)
    && (LinkedIDs(w.file) !! w.lost !! w.left)
    && (forall id :: id in LinkedIDs(w.file) + w.lost + w.left ==> id < w.server.nextID)
    && Owned(w.server, ws) == (LinkedIDs(w.file) + w.lost + w.left) * w.server.clusters.Keys
  }

  predicate Admitted(w: World, ws: string, ops: seq<Op>)
    decreases |ops|
  {
    ops == [] || (Admissible(w, ws, ops[0]) && Admitted(Apply(w, ops[0]), ws, ops[1..]))
  }

  function Final(w: World, ops: seq<Op>): World
    decreases |ops|
  {
    if ops == [] then w else Final(Apply(w, ops[0]), ops[1..])
  }

  /** A Register that leaves a cluster without a link: one whose link write failed, or one
      that landed behind an error and was not rolled back with its project. */
  predicate Orphans(w: World, req: Request, r: RegisterReplies) {
    var p := ResolveProject(w.server, req, r).0;
    Complete(req) && !Registered(w.file) && !w.file.Unreadable? && p.Some? && ClusterOrphans(p.value, r)
  }

  predicate ClusterOrphans(p: Project, r: RegisterReplies) {
    match r.cluster
    case Made => !r.writeOk
    case NotMade(landed) => landed && !(p.ours && r.rollback.Applied() && r.cascade)
  }

  /** An Unregister that drops the link of a standing cluster: its delete left it alone and
      answered "not found", nothing else stopped the call, and no purge took it along. */
  predicate Strands(w: World, purge: bool, r: UnregisterReplies) {
    && Registered(w.file) && w.file.link.clusterID in w.server.clusters
    && r.cluster == Failed(true, false) && (purge ==> r.project.Tolerated()) && r.removeOk
    && !(purge && r.project.Applied() && r.cascade
         && w.server.clusters[w.file.link.clusterID].project == w.file.link.projectID)
  }

  predicate Lossless(w: World, op: Op) {
    op.DoRegister? ==> !Orphans(w, op.req, op.replies)
  }

  predicate Candid(w: World, op: Op) {
    op.DoUnregister? ==> !Strands(w, op.purge, op.undo)
  }

  lemma ClusterStepKeeps(w: World, ws: string, p: Project, s: Server, req: Request, r: RegisterReplies)
    requires Inv(w, ws) && req.workspace == ws && !Registered(w.file)
    requires s.clusters == w.server.clusters && s.nextID >= w.server.nextID && Sane(s) && p.id < s.nextID
    requires p.ours ==> w.server.nextID <= p.id
    ensures Inv(ClusterStep(w, p, s, req, r).0, ws)
    ensures ClusterStep(w, p, s, req, r).0.lost == w.lost + if ClusterOrphans(p, r) then {s.nextID} else {}
    ensures w.server.clusters.Keys <= ClusterStep(w, p, s, req, r).0.server.clusters.Keys
    ensures ClusterStep(w, p, s, req, r).0.server.clusters.Keys <= w.server.clusters.Keys + {s.nextID}
    ensures ClusterOrphans(p, r) ==> s.nextID in ClusterStep(w, p, s, req, r).0.server.clusters
  {
    var w' := ClusterStep(w, p, s, req, r).0;
    forall c | c in w.server.clusters ensures c in w'.server.clusters {
      assert w.server.clusters[c].project < w.server.nextID;
    }
    var tracked, tracked' := w.lost + w.left, LinkedIDs(w'.file) + w'.lost + w'.left;
    forall id
      ensures id in Owned(w'.server, ws) <==> id in tracked' * w'.server.clusters.Keys
    {
      if id != s.nextID {
        assert id in Owned(w.server, ws) <==> id in tracked * w.server.clusters.Keys;
        assert id in tracked' <==> id in tracked;
      }
    }
  }

  lemma RegisterKeeps(w: World, ws: string, req: Request, r: RegisterReplies)
    requires Inv(w, ws) && req.workspace == ws
    ensures var w', id := RegisterStep(w, req, r).0, ResolveProject(w.server, req, r).1.nextID;
            && Inv(w', ws) && w'.left == w.left
            && w'.lost == w.lost + (if Orphans(w, req, r) then {id} else {})
            && id !in w.lost && id !in w.server.clusters && (Orphans(w, req, r) ==> id in w'.server.clusters)
            && w.server.clusters.Keys <= w'.server.clusters.Keys <= w.server.clusters.Keys + {id}
  {
    var (p, s) := ResolveProject(w.server, req, r);
    if Complete(req) && !Registered(w.file) && !w.file.Unreadable? {
      if p.Some? {
        ClusterStepKeeps(w, ws, p.value, s, req, r);
      } else {
        assert Owned(s, ws) == Owned(w.server, ws);
      }
    }
  }

  lemma UnregisterKeeps(w: World, ws: string, purge: bool, r: UnregisterReplies)
    requires Inv(w, ws)
    ensures var w' := UnregisterStep(w, purge, r).0;
            && Inv(w', ws) && w'.lost == w.lost
            && w'.left == w.left + (if Strands(w, purge, r) then {w.file.link.clusterID} else {})
            && w'.server.clusters.Keys <= w.server.clusters.Keys
            && (Strands(w, purge, r) ==> w.file.link.clusterID in w'.server.clusters)
  {
    var w' := UnregisterStep(w, purge, r).0;
    var tracked, tracked' := LinkedIDs(w.file) + w.lost + w.left, LinkedIDs(w'.file) + w'.lost + w'.left;
    forall id
      ensures id in Owned(w'.server, ws) <==> id in tracked' * w'.server.clusters.Keys
    {
      assert id in Owned(w.server, ws) <==> id in tracked * w.server.clusters.Keys;
      assert id in w'.server.clusters ==> (id in tracked' <==> id in tracked);
    }
  }

  /** One operation keeps the invariant; `lost` grows by one exactly when it orphans a
      cluster, `left` exactly when it strands one. */
  lemma StepKeeps(w: World, ws: string, op: Op)
    requires Inv(w, ws) && Admissible(w, ws, op)
    ensures var w' := Apply(w, op);
            && Inv(w', ws) && w.lost <= w'.lost && w.left <= w'.left
            && |w'.lost| == |w.lost| + (if Lossless(w, op) then 0 else 1)
            && |w'.left| == |w.left| + (if Candid(w, op) then 0 else 1)
  {
    match op {
      case DoRegister(req, r) => RegisterKeeps(w, ws, req, r);
      case DoUnregister(purge, r) => UnregisterKeeps(w, ws, purge, r);
      case MarkPending(ok) =>
      case Outside(s) => OutsideKeeps(w, ws, s);
    }
  }

  lemma OutsideKeeps(w: World, ws: string, s: Server)
    requires Inv(w, ws) && Admissible(w, ws, Outside(s))
    ensures Inv(w.(server := s), ws)
  {
    var tracked := LinkedIDs(w.file) + w.lost + w.left;
    forall id
      ensures id in Owned(s, ws) <==> id in tracked * s.clusters.Keys
    {
      assert id in Owned(s, ws) <==> id in Owned(w.server, ws) && id in s.clusters;
      assert id in Owned(w.server, ws) <==> id in tracked && id in w.server.clusters;
    }
  }

  /** How many operations of a run orphan a cluster, and how many strand one. */
  function OrphanCount(w: World, ops: seq<Op>): nat
    decreases |ops|
  {
    if ops == [] then 0 else (if Lossless(w, ops[0]) then 0 else 1) + OrphanCount(Apply(w, ops[0]), ops[1..])
  }

  function StrandCount(w: World, ops: seq<Op>): nat
    decreases |ops|
  {
    if ops == [] then 0 else (if Candid(w, ops[0]) then 0 else 1) + StrandCount(Apply(w, ops[0]), ops[1..])
  }

  /** Over every run the owned clusters are exactly those still standing among the linked
      one, those whose link was never written and those an Unregister left behind; there
      are as many of the former as orphaning calls, and of the latter as stranding ones. */
  lemma {:induction false} RunKeeps(w: World, ws: string, ops: seq<Op>)
    requires Inv(w, ws) && Admitted(w, ws, ops)
    ensures Inv(Final(w, ops), ws)
    ensures w.lost <= Final(w, ops).lost && |Final(w, ops).lost| == |w.lost| + OrphanCount(w, ops)
    ensures w.left <= Final(w, ops).left && |Final(w, ops).left| == |w.left| + StrandCount(w, ops)
    decreases |ops|
  {
    if ops != [] {
      StepKeeps(w, ws, ops[0]);
      RunKeeps(Apply(w, ops[0]), ws, ops[1..]);
    }
  }

  /** A workspace that has nothing on the server and no link. */
  predicate Clean(w: World, ws: string) {
    Sane(w.server) && w.file == Absent && w.lost == {} && w.left == {} && Owned(w.server, ws) == {}
  }

  /** How many clusters a workspace owns: the linked one if it stands, and one for each
      lost or left one that still stands. */
  lemma OwnedCount(w: World, ws: string)
    requires Inv(w, ws)
    ensures var alive := w.server.clusters.Keys;
            |Owned(w.server, ws)| == |LinkedIDs(w.file) * alive| + |w.lost * alive| + |w.left * alive|
  {
    var alive := w.server.clusters.Keys;
    var a, b, c := LinkedIDs(w.file) * alive, w.lost * alive, w.left * alive;
    assert Owned(w.server, ws) == a + b + c;
    assert a !! b && (a + b) !! c;
  }

  /** Lost and left clusters still standing. */
  function Strays(w: World): set<int> {
    (w.lost + w.left) * w.server.clusters.Keys
  }

  /** How many strays the operations of a run take away: a purge or a rollback that takes a
      project's clusters along, or someone else. */
  function TakenCount(w: World, ops: seq<Op>): nat
    decreases |ops|
  {
    if ops == [] then 0 else |Strays(w) - Strays(Apply(w, ops[0]))| + TakenCount(Apply(w, ops[0]), ops[1..])
  }

  /** A stray comes from an orphaning or stranding operation, and goes only by being taken. */
  lemma StepStrays(w: World, ws: string, op: Op)
    requires Inv(w, ws) && Admissible(w, ws, op)
    ensures var w' := Apply(w, op);
            |Strays(w')| + |Strays(w) - Strays(w')| ==
              |Strays(w)| + (if Lossless(w, op) then 0 else 1) + (if Candid(w, op) then 0 else 1)
  {
    var added := FreshStray(w, ws, op);
    SetGrowth(Strays(w), Strays(Apply(w, op)), added);
  }

  lemma SetGrowth(was: set<int>, now: set<int>, added: set<int>)
    requires added !! was && added <= now <= was + added
    ensures |now| + |was - now| == |was| + |added|
  {
    assert now == (was - (was - now)) + added;
    assert was == (was - (was - now)) + (was - now);
  }

  lemma FreshStray(w: World, ws: string, op: Op) returns (added: set<int>)
    requires Inv(w, ws) && Admissible(w, ws, op)
    ensures added !! Strays(w) && added <= Strays(Apply(w, op)) && Strays(Apply(w, op)) <= Strays(w) + added
    ensures |added| == (if Lossless(w, op) then 0 else 1) + (if Candid(w, op) then 0 else 1)
  {
    added := {};
    match op {
      case DoRegister(req, r) => added := FreshOrphan(w, ws, req, r);
      case DoUnregister(purge, r) => added := FreshStranded(w, ws, purge, r);
      case MarkPending(ok) =>
      case Outside(s) => OutsideStrays(w, ws, s);
    }
  }

  lemma FreshOrphan(w: World, ws: string, req: Request, r: RegisterReplies) returns (added: set<int>)
    requires Inv(w, ws) && req.workspace == ws
    ensures var w' := RegisterStep(w, req, r).0;
            added !! Strays(w) && added <= Strays(w') && Strays(w') <= Strays(w) + added
    ensures |added| == if Orphans(w, req, r) then 1 else 0
  {
    var id := ResolveProject(w.server, req, r).1.nextID;
    RegisterKeeps(w, ws, req, r);
    assert id >= w.server.nextID;
    added := if Orphans(w, req, r) then {id} else {};
    forall x | x in Strays(RegisterStep(w, req, r).0) ensures x in Strays(w) + added {
      assert x in w.lost + w.left ==> x < w.server.nextID;
    }
  }

  lemma FreshStranded(w: World, ws: string, purge: bool, r: UnregisterReplies) returns (added: set<int>)
    requires Inv(w, ws)
    ensures var w' := UnregisterStep(w, purge, r).0;
            added !! Strays(w) && added <= Strays(w') && Strays(w') <= Strays(w) + added
    ensures |added| == if Strands(w, purge, r) then 1 else 0
  {
    UnregisterKeeps(w, ws, purge, r);
    added := {};
    if Strands(w, purge, r) {
      added := {w.file.link.clusterID};
    }
    StraysGrow(w, UnregisterStep(w, purge, r).0, LinkedIDs(w.file), added);
  }

  lemma StraysGrow(w: World, w': World, linked: set<int>, added: set<int>)
    requires w'.lost == w.lost && w'.left == w.left + added && added <= linked && (linked !! w.lost !! w.left)
    requires added <= w'.server.clusters.Keys <= w.server.clusters.Keys
    ensures added !! Strays(w) && added <= Strays(w') && Strays(w') <= Strays(w) + added
  {
  }

  /** Someone else's change brings no stray back: ids are not reused. */
  lemma OutsideStrays(w: World, ws: string, s: Server)
    requires Inv(w, ws) && Admissible(w, ws, Outside(s))
    ensures Strays(w.(server := s)) <= Strays(w)
  {
    forall x | x in Strays(w.(server := s)) ensures x in Strays(w) {
      assert x < w.server.nextID && x in w.server.clusters;
    }
  }

  lemma {:induction false} RunStrays(w: World, ws: string, ops: seq<Op>)
    requires Inv(w, ws) && Admitted(w, ws, ops)
    ensures |Strays(Final(w, ops))| + TakenCount(w, ops) == |Strays(w)| + OrphanCount(w, ops) + StrandCount(w, ops)
    decreases |ops|
  {
    if ops != [] {
      StepKeeps(w, ws, ops[0]);
      StepStrays(w, ws, ops[0]);
      RunStrays(Apply(w, ops[0]), ws, ops[1..]);
    }
  }

  /** One if the workspace is linked to a standing cluster. */
  function LinkedCount(w: World): nat {
    |LinkedIDs(w.file) * w.server.clusters.Keys|
  }

  /** Conservation, run by run, from a clean start: the owned clusters are the orphaned and
      the stranded ones but for those taken, and the linked one if it stands. So the
      workspace owns at most one if and only if that number is at most one. */
  lemma RunCount(w: World, ws: string, ops: seq<Op>)
    requires Clean(w, ws) && Admitted(w, ws, ops)
    ensures var owned, made := |Owned(Final(w, ops).server, ws)|, OrphanCount(w, ops) + StrandCount(w, ops);
            && owned + TakenCount(w, ops) == made + LinkedCount(Final(w, ops))
            && (owned <= 1 <==> made + LinkedCount(Final(w, ops)) <= 1 + TakenCount(w, ops))
  {
    RunKeeps(w, ws, ops);
    RunStrays(w, ws, ops);
    OwnedSum(Final(w, ops), ws);
    assert Strays(w) == {};
  }

  lemma OwnedSum(w: World, ws: string)
    requires Inv(w, ws)
    ensures |Owned(w.server, ws)| == LinkedCount(w) + |Strays(w)|
  {
    var alive := w.server.clusters.Keys;
    OwnedCount(w, ws);
    DisjointSum(w.lost * alive, w.left * alive, Strays(w));
  }

  lemma DisjointSum(a: set<int>, b: set<int>, both: set<int>)
    requires a !! b && both == a + b
    ensures |both| == |a| + |b|
  {
  }

  /** Along the run no call orphans a cluster, none strands one. */
  predicate Behaved(w: World, ops: seq<Op>, lossless: bool, candid: bool)
    decreases |ops|
  {
    ops == [] ||
    (&& (lossless ==> Lossless(w, ops[0])) && (candid ==> Candid(w, ops[0]))
     && Behaved(Apply(w, ops[0]), ops[1..], lossless, candid))
  }

  lemma {:induction false} BehavedCounts(w: World, ops: seq<Op>)
    ensures Behaved(w, ops, true, true) <==> OrphanCount(w, ops) == 0 && StrandCount(w, ops) == 0
    decreases |ops|
  {
    if ops != [] {
      BehavedCounts(Apply(w, ops[0]), ops[1..]);
    }
  }

  /** Over any run in which no call orphans or strands a cluster, the workspace owns at most
      one cluster on the server, and it is the linked one. */
  lemma AtMostOneCluster(w: World, ws: string, ops: seq<Op>)
    requires Clean(w, ws) && Admitted(w, ws, ops) && Behaved(w, ops, true, true)
    ensures |Owned(Final(w, ops).server, ws)| <= 1
    ensures Owned(Final(w, ops).server, ws) <= LinkedIDs(Final(w, ops).file)
  {
    BehavedCounts(w, ops);
    RunKeeps(w, ws, ops);
    OwnedCount(Final(w, ops), ws);
    var w' := Final(w, ops);
    SubsetSize(LinkedIDs(w'.file) * w'.server.clusters.Keys, LinkedIDs(w'.file));
  }

  lemma {:induction false} SubsetSize(a: set<int>, b: set<int>)
    requires a <= b
    ensures |a| <= |b|
  {
    assert b == a + (b - a);
  }

  // ---------------------------------------------------------------------------
  // Both provisos are needed, and exactly those
  // ---------------------------------------------------------------------------

  const START := World(Server(map[], map[], 1), Absent, {}, {})
  const GOOD := RegisterReplies(true, Created, true, [], Made, Gone, false, true)

  function Ask(ws: string): Request {
    Request(ws, "d", "p", "c", "k", "m", "r")
  }

  lemma FinalTwo(w: World, a: Op, b: Op)
    ensures Final(w, [a, b]) == Apply(Apply(w, a), b)
  {
    var one := [b];
    assert [a, b][1..] == one && one[1..] == [];
    assert Final(Apply(w, a), one) == Final(Apply(Apply(w, a), b), []);
  }

  /** One failed link write and a retry leave two clusters, both in this workspace's name. */
  lemma LostWriteDuplicates(ws: string)
    requires ws != ""
    ensures var ops := [DoRegister(Ask(ws), GOOD.(writeOk := false)), DoRegister(Ask(ws), GOOD)];
            Owned(Final(START, ops).server, ws) == {2, 4}
  {
    var a, b := DoRegister(Ask(ws), GOOD.(writeOk := false)), DoRegister(Ask(ws), GOOD);
    FinalTwo(START, a, b);
    var w1 := Apply(START, a);
    assert w1.server.clusters == map[2 := Cluster(1, "c", ws)];
    assert Apply(w1, b).server.clusters == map[2 := Cluster(1, "c", ws), 4 := Cluster(3, "c", ws)];
  }

  const MISLED := UnregisterReplies(Failed(true, false), Gone, false, true)

  /** A delete_cluster that fails with a not-found text and leaves the cluster alone: the
      link goes, the cluster stays, and the next registration makes a second one, although
      every link write succeeded. */
  lemma MisledUnregisterDuplicates(ws: string)
    requires ws != ""
    ensures var w := Final(START, [DoRegister(Ask(ws), GOOD), DoUnregister(false, MISLED)]);
            && w.file == Absent && w.left == {2} && Owned(w.server, ws) == {2}
            && Owned(Apply(w, DoRegister(Ask(ws), GOOD)).server, ws) == {2, 4}
            && Apply(w, DoRegister(Ask(ws), GOOD)).lost == {}
  {
    var a, b := DoRegister(Ask(ws), GOOD), DoUnregister(false, MISLED);
    FinalTwo(START, a, b);
    var w1 := Apply(START, a);
    assert w1.server.clusters == map[2 := Cluster(1, "c", ws)];
    var w2 := Apply(w1, b);
    assert w2.server == w1.server;
    assert Apply(w2, a).server.clusters == map[2 := Cluster(1, "c", ws), 4 := Cluster(3, "c", ws)];
  }

  /** The two provisos of AtMostOneCluster are exactly what one cluster per workspace
      takes: with either of them missing, some run ends with two. */
  lemma OneClusterIff(ws: string, lossless: bool, candid: bool)
    requires ws != ""
    ensures (forall w, ops :: Clean(w, ws) && Admitted(w, ws, ops) && Behaved(w, ops, lossless, candid) ==>
               |Owned(Final(w, ops).server, ws)| <= 1)
            <==> lossless && candid
  {
    if lossless && candid {
      forall w, ops | Clean(w, ws) && Admitted(w, ws, ops) && Behaved(w, ops, lossless, candid)
        ensures |Owned(Final(w, ops).server, ws)| <= 1
      {
        AtMostOneCluster(w, ws, ops);
      }
    } else {
      var ops := TwoClusterRun(ws, lossless, candid);
      assert |Owned(Final(START, ops).server, ws)| == 2;
    }
  }

  lemma TwoClusterRun(ws: string, lossless: bool, candid: bool) returns (ops: seq<Op>)
    requires ws != "" && !(lossless && candid)
    ensures Clean(START, ws) && Admitted(START, ws, ops) && Behaved(START, ops, lossless, candid)
    ensures Owned(Final(START, ops).server, ws) == {2, 4}
  {
    var a := DoRegister(Ask(ws), GOOD);
    assert Owned(START.server, ws) == {};
    if !lossless {
      var lossy := DoRegister(Ask(ws), GOOD.(writeOk := false));
      ops := [lossy, a];
      LostWriteDuplicates(ws);
      var w := Apply(Apply(START, lossy), a);
      assert Admitted(w, ws, []) && Behaved(w, [], lossless, candid);
      assert ops[1..] == [a] && ops[1..][1..] == [];
    } else {
      var b := DoUnregister(false, MISLED);
      ops := [a, b, a];
      MisledUnregisterDuplicates(ws);
      FinalTwo(START, a, b);
      FinalTwo(Apply(START, a), b, a);
      var w := Apply(Apply(Apply(START, a), b), a);
      assert Admitted(w, ws, []) && Behaved(w, [], lossless, candid);
      assert ops[1..] == [b, a] && ops[1..][1..] == [a] && ops[1..][1..][1..] == [];
    }
  }

  /** A pending link names no cluster, as MarkPending leaves it. */
  predicate PendingEmpty(w: World) {
    w.file.Present? && w.file.link.pending ==> w.file.link.clusterID == 0
  }

  /** Without a purge or a deletion by someone else nothing is taken, so then RunCount has
      one term less; registrations alone are such a run. */
  lemma {:induction false} NothingTaken(w: World, ws: string, ops: seq<Op>)
    requires Inv(w, ws) && PendingEmpty(w) && Admitted(w, ws, ops)
    requires forall op :: op in ops ==> !op.Outside? && (op.DoUnregister? ==> !op.purge)
    ensures TakenCount(w, ops) == 0
    decreases |ops|
  {
    if ops != [] {
      assert ops[0] in ops && forall op :: op in ops[1..] ==> op in ops;
      StepKeeps(w, ws, ops[0]);
      StraysStay(w, ws, ops[0]);
      NothingTaken(Apply(w, ops[0]), ws, ops[1..]);
    }
  }

  lemma StraysStay(w: World, ws: string, op: Op)
    requires Inv(w, ws) && PendingEmpty(w) && Admissible(w, ws, op)
    requires !op.Outside? && (op.DoUnregister? ==> !op.purge)
    ensures PendingEmpty(Apply(w, op)) && Strays(w) - Strays(Apply(w, op)) == {}
  {
    match op {
      case DoRegister(req, r) => RegisterKeeps(w, ws, req, r);
      case DoUnregister(purge, r) => UnregisterKeeps(w, ws, purge, r);
      case MarkPending(ok) =>
    }
  }

  lemma {:induction false} RegistersOnly(w: World, ws: string, ops: seq<Op>)
    requires Inv(w, ws) && LinkedIDs(w.file) <= w.server.clusters.Keys
    requires forall op :: op in ops ==> op.DoRegister? && op.req.workspace == ws
    ensures Admitted(w, ws, ops) && StrandCount(w, ops) == 0
    ensures LinkedIDs(Final(w, ops).file) <= Final(w, ops).server.clusters.Keys
    decreases |ops|
  {
    if ops != [] {
      assert ops[0] in ops && forall op :: op in ops[1..] ==> op in ops;
      RegisterKeeps(w, ws, ops[0].req, ops[0].replies);
      RegistersOnly(Apply(w, ops[0]), ws, ops[1..]);
    }
  }

  /** Over registrations alone, from a clean start: the workspace owns one cluster for each
      orphaning call and one if it is linked. */
  lemma RegisterOnlyCount(w: World, ws: string, ops: seq<Op>)
    requires Clean(w, ws) && forall op :: op in ops ==> op.DoRegister? && op.req.workspace == ws
    ensures |Owned(Final(w, ops).server, ws)| == OrphanCount(w, ops) + if Registered(Final(w, ops).file) then 1 else 0
  {
    RegistersOnly(w, ws, ops);
    RunCount(w, ws, ops);
    NothingTaken(w, ws, ops);
    var w' := Final(w, ops);
    assert LinkedIDs(w'.file) * w'.server.clusters.Keys == LinkedIDs(w'.file);
  }

  // ---------------------------------------------------------------------------
  // One call
  // ---------------------------------------------------------------------------

  /** The listed project at index i is the first one of that name. */
  predicate FirstNamed(s: Server, listed: seq<int>, name: string, i: int)
    requires 0 <= i < |listed|
  {
    && listed[i] in s.projects && SameName(s.projects[listed[i]], name)
    && forall k :: 0 <= k < i && listed[k] in s.projects ==> !SameName(s.projects[listed[k]], name)
  }

  lemma {:induction false} FindsFirst(s: Server, listed: seq<int>, name: string)
    ensures var r := FindProject(s, listed, name);
            && (r.Some? ==> exists i :: 0 <= i < |listed| && listed[i] == r.value && FirstNamed(s, listed, name, i))
            && (r.None? ==> forall id :: id in listed && id in s.projects ==> !SameName(s.projects[id], name))
    decreases |listed|
  {
    forall id | id in s.projects ensures Lower(s.projects[id]) == Lower(name) <==> SameName(s.projects[id], name) {
      LowerMeans(s.projects[id], name);
    }
    if listed != [] {
      if listed[0] in s.projects && SameName(s.projects[listed[0]], name) {
        assert FirstNamed(s, listed, name, 0);
      } else {
        FindsFirst(s, listed[1..], name);
        if i :| 0 <= i < |listed| - 1 && FirstNamed(s, listed[1..], name, i)
                && Some(listed[1..][i]) == FindProject(s, listed[1..], name) {
          assert forall k :: 0 < k < |listed| ==> listed[k] == listed[1..][k - 1];
          assert FirstNamed(s, listed, name, i + 1);
        }
      }
    }
  }

  /** A first registration records what the server now holds: the linked cluster stands
      in the linked project, under the requested names and this workspace; the link carries
      the cluster's name and both URLs in use; the project is new and named as asked, or,
      after a conflict, the first listed one of that name; and nothing the server held
      before is gone or changed. */
  lemma FreshLinkFaithful(w: World, req: Request, r: RegisterReplies)
    requires Sane(w.server) && !Registered(w.file) && RegisterStep(w, req, r).1.Linked?
    ensures var (w', res) := RegisterStep(w, req, r); var link := res.link;
            && w'.file == Present(link) && !link.pending
            && link.clusterName == req.cluster && link.mcpURL == req.mcpURL && link.restURL == req.restURL
            && link.clusterID in w'.server.clusters && link.clusterID !in w.server.clusters
            && w'.server.clusters[link.clusterID] == Cluster(link.projectID, req.cluster, req.workspace)
            && link.projectID in w'.server.projects && w'.server.projects[link.projectID] == link.projectName
            && (link.projectID in w.server.projects <==> r.project.Conflict?)
            && w'.server.clusters - {link.clusterID} == w.server.clusters
            && (forall id :: id in w.server.projects ==>
                  id in w'.server.projects && w'.server.projects[id] == w.server.projects[id])
            && w'.server.projects.Keys == w.server.projects.Keys + {link.projectID}
    ensures var link, asked := RegisterStep(w, req, r).1.link, ProjectName(req);
            && (r.project.Created? ==> link.projectName == asked)
            && (r.project.Conflict? ==>
                 && SameName(link.projectName, asked)
                 && exists i :: 0 <= i < |r.listed| && r.listed[i] == link.projectID
                                && FirstNamed(w.server, r.listed, asked, i))
    ensures req.project != "" ==> ProjectName(req) == req.project
    ensures req.project == "" ==> ProjectName(req) == "awsbnkctl-" + req.workspace
  {
    var (w', res) := RegisterStep(w, req, r);
    assert res.link.clusterID !in w.server.clusters;
    assert w'.server.clusters - {res.link.clusterID} == w.server.clusters;
    FindsFirst(w.server, r.listed, ProjectName(req));
    LowerMeans(res.link.projectName, ProjectName(req));
  }

  /** What a Register on a live link leaves: each URL in use replaces the recorded one
      unless it is empty; nothing else of the link changes, and the file is written exactly
      when a URL changed. */
  lemma RefreshKeepsIds(w: World, req: Request, r: RegisterReplies)
    requires Complete(req) && Registered(w.file) && r.getOk && w.file.link.clusterID in w.server.clusters
    ensures var (w', res) := RegisterStep(w, req, r); var was := w.file.link;
            && (res.Linked? || res.WriteFailed?)
            && res.link.mcpURL == (if req.mcpURL != "" then req.mcpURL else was.mcpURL)
            && res.link.restURL == (if req.restURL != "" then req.restURL else was.restURL)
            && res.link.projectID == was.projectID && res.link.projectName == was.projectName
            && res.link.clusterID == was.clusterID && res.link.clusterName == was.clusterName && !res.link.pending
            && (res.WriteFailed? <==> res.link != was && !r.writeOk)
            && (res.Linked? ==> (res.refreshed <==> res.link != was))
            && w' == if res.Linked? then w.(file := Present(res.link)) else w
  {
  }

  /** When Register ends how, over all inputs. */
  lemma RegisterOutcomes(w: World, req: Request, r: RegisterReplies)
    ensures var res := RegisterStep(w, req, r).1;
            var whole := req.workspace != "" && req.dir != "" && req.cluster != "" && req.kubeconfig != "";
            var linked := w.file.Present? && !w.file.link.pending;
            var first := whole && !linked && !w.file.Unreadable?;
            var named := r.listOk && exists id :: id in r.listed && id in w.server.projects
                                                  && SameName(w.server.projects[id], ProjectName(req));
            var placed := r.project.Created? || (r.project.Conflict? && named);
            && (res.Invalid? <==> !whole)
            && (res.StaleLink? <==> whole && linked && !(r.getOk && w.file.link.clusterID in w.server.clusters))
            && (res.ReadFailed? <==> whole && w.file.Unreadable?)
            && (res.ProjectFailed? <==> first && !placed)
            && (res.ClusterFailed? <==> first && placed && r.cluster.NotMade?)
            && (first && res.WriteFailed? <==> first && placed && r.cluster.Made? && !r.writeOk)
            && (first && res.Linked? <==> first && placed && r.cluster.Made? && r.writeOk)
  {
    FindsFirst(w.server, r.listed, ProjectName(req));
  }

  /** Re-registering a registered workspace creates nothing, however often and whatever
      the replies: the server stays as it is, and so do the recorded ids. */
  lemma {:induction false} RepeatedRegister(w: World, ops: seq<Op>)
    requires Registered(w.file) && forall op :: op in ops ==> op.DoRegister?
    ensures var w' := Final(w, ops);
            && w'.server == w.server && w'.lost == w.lost && Registered(w'.file)
            && w'.file.link.projectID == w.file.link.projectID && w'.file.link.clusterID == w.file.link.clusterID
    decreases |ops|
  {
    if ops != [] {
      assert ops[0] in ops && forall op :: op in ops[1..] ==> op in ops;
      RepeatedRegister(Apply(w, ops[0]), ops[1..]);
    }
  }

  /** A successful Register reports and records one and the same link, its cluster is on
      the server, and every later Register that succeeds reports the same ids. */
  lemma SecondRegisterSameIds(w: World, req: Request, r: RegisterReplies, ops: seq<Op>, req': Request,
                              r': RegisterReplies)
    requires RegisterStep(w, req, r).1.Linked? && forall op :: op in ops ==> op.DoRegister?
    ensures var (w1, first) := RegisterStep(w, req, r);
            && w1.file == Present(first.link) && first.link.clusterID in w1.server.clusters
            && var second := RegisterStep(Final(w1, ops), req', r').1;
               second.Linked? ==>
                 second.link.projectID == first.link.projectID && second.link.clusterID == first.link.clusterID
  {
    RepeatedRegister(RegisterStep(w, req, r).0, ops);
  }

  /** A failed create_cluster takes back the project exactly when this very call created
      it and the rollback got through; what was there before stays, and a cluster that
      landed behind the error goes only with its project. */
  lemma RollbackOnlyOwnProject(w: World, req: Request, r: RegisterReplies)
    requires Sane(w.server) && RegisterStep(w, req, r).1.ClusterFailed?
    ensures var w' := RegisterStep(w, req, r).0; var created := r.project.Created?;
            && w'.file == w.file
            && w'.server.projects ==
                 (if created && !r.rollback.Applied() then w.server.projects[w.server.nextID := ProjectName(req)]
                  else w.server.projects)
            && (forall c :: c in w.server.clusters ==>
                  c in w'.server.clusters && w'.server.clusters[c] == w.server.clusters[c])
            && (w'.server.clusters.Keys != w.server.clusters.Keys <==>
                 r.cluster.landed && !(created && r.rollback.Applied() && r.cascade))
  {
    var w' := RegisterStep(w, req, r).0;
    var (p, s) := ResolveProject(w.server, req, r);
    assert w.server.nextID !in w.server.projects && s.nextID !in w.server.clusters;
    assert p.value.ours && r.rollback.Applied() ==> w'.server.projects == w.server.projects;
    assert s.nextID in w'.server.clusters <==> r.cluster.landed && !(p.value.ours && r.rollback.Applied() && r.cascade);
    assert forall c :: c in w.server.clusters ==> w.server.clusters[c].project != w.server.nextID;
  }

  /** How Unregister ends, over all inputs; and what then became of the linked cluster: after
      the link is dropped it is still there if and only if its delete left it alone and
      answered "not found", and no purge took it along. Every other outcome keeps the link. */
  lemma UnregisterDropsLast(w: World, purge: bool, r: UnregisterReplies)
    requires w.file.Present?
    ensures var (w', res) := UnregisterStep(w, purge, r); var link := w.file.link; var id := link.clusterID;
            && (w'.file == w.file <==> !res.Dropped?)
            && (res.ClusterKept? <==> !r.cluster.Tolerated())
            && (res.ProjectKept? <==> r.cluster.Tolerated() && purge && !r.project.Tolerated())
            && (res.LinkKept? <==> r.cluster.Tolerated() && (purge ==> r.project.Tolerated()) && !r.removeOk)
            && (res.Dropped? <==> r.cluster.Tolerated() && (purge ==> r.project.Tolerated()) && r.removeOk)
            && (res.Dropped? ==>
                 && w'.file == Absent
                 && (id in w'.server.clusters <==>
                      && id in w.server.clusters && r.cluster == Failed(true, false)
                      && !(purge && r.project.Applied() && r.cascade
                           && w.server.clusters[id].project == link.projectID)))
  {
  }

  /** What Unregister may touch: the linked cluster; when purging, and only after the cluster
      step went through, the linked project, and with it its clusters if the server cascades. */
  lemma UnregisterScope(w: World, purge: bool, r: UnregisterReplies)
    requires w.file.Present?
    ensures var w', link := UnregisterStep(w, purge, r).0, w.file.link;
            var purged := purge && r.cluster.Tolerated() && r.project.Applied();
            && (forall p :: p in w'.server.projects <==> p in w.server.projects && !(purged && p == link.projectID))
            && (forall c :: c in w'.server.clusters <==>
                  && c in w.server.clusters
                  && !(r.cluster.Applied() && c == link.clusterID)
                  && !(purged && r.cascade && w.server.clusters[c].project == link.projectID))
            && (forall p :: p in w'.server.projects ==> w'.server.projects[p] == w.server.projects[p])
            && (forall c :: c in w'.server.clusters ==> w'.server.clusters[c] == w.server.clusters[c])
  {
  }

  /** No Unregister along the run gets as far as dropping the link. */
  predicate NeverDropped(w: World, ops: seq<Op>)
    decreases |ops|
  {
    ops == [] ||
    (&& (ops[0].DoUnregister? ==> !UnregisterStep(w, ops[0].purge, ops[0].undo).1.Dropped?)
     && NeverDropped(Apply(w, ops[0]), ops[1..]))
  }

  /** The file links another cluster than id, or none. */
  predicate Elsewhere(w: World, id: int) {
    id < w.server.nextID && id !in LinkedIDs(w.file)
  }

  lemma {:induction false} StaysElsewhere(w: World, ws: string, ops: seq<Op>, id: int)
    requires Elsewhere(w, id) && Admitted(w, ws, ops)
    ensures Elsewhere(Final(w, ops), id)
    decreases |ops|
  {
    if ops != [] {
      assert Elsewhere(Apply(w, ops[0]), id);
      StaysElsewhere(Apply(w, ops[0]), ws, ops[1..], id);
    }
  }

  /** Once the linked cluster is gone, every complete Register after any run is refused
      with that very link, whatever the replies, if and only if no Unregister in the run
      got as far as dropping it. */
  lemma {:induction false} StaleUntilDropped(w: World, ws: string, ops: seq<Op>, req: Request, r: RegisterReplies)
    requires Registered(w.file) && w.file.link.clusterID !in w.server.clusters
        && w.file.link.clusterID < w.server.nextID
    requires Admitted(w, ws, ops) && Complete(req)
    ensures RegisterStep(Final(w, ops), req, r) == (Final(w, ops), StaleLink(w.file.link)) <==> NeverDropped(w, ops)
    decreases |ops|
  {
    if ops != [] {
      var w', id := Apply(w, ops[0]), w.file.link.clusterID;
      if ops[0].DoUnregister? && UnregisterStep(w, ops[0].purge, ops[0].undo).1.Dropped? {
        StaysElsewhere(w', ws, ops[1..], id);
      } else {
        assert w'.file == w.file && id !in w'.server.clusters && id < w'.server.nextID;
        StaleUntilDropped(w', ws, ops[1..], req, r);
      }
    }
  }
}
