/** One tar layer of an image, read member by member into the collections the overlay uses. */
module OciLayer {
  import opened Common
  import opened Paths
  import opened Links

  const MAX_ARCHIVE_MEMBERS: nat := 100_000
  const MAX_OCI_MEMBERS: nat := 200_000
  const MAX_SINGLE_FILE_BYTES: nat := 64 * 1024 * 1024
  const MAX_ARCHIVE_BYTES: nat := 512 * 1024 * 1024
  const MAX_OCI_EXPANDED_BYTES: nat := 1024 * 1024 * 1024

  const OPAQUE_MARKER := ".wh..wh..opq"
  const WHITEOUT_PREFIX := ".wh."

  datatype MemberKind = DirectoryMember | RegularMember | SymlinkMember | HardlinkMember | SpecialMember

  datatype Attributes = Attributes(mode: nat, uid: nat, gid: nat)

  datatype Member = Member(name: string, kind: MemberKind, attributes: Attributes, size: nat, data: Bytes, linkName: string)

  datatype EntryKind = Directory | File | Hardlink | Symlink

  datatype Entry = Entry(kind: EntryKind, attributes: Attributes, data: Option<Bytes>, target: Option<string>)

  datatype Layer = Layer(
    files: map<Path, Bytes>,
    links: map<Path, Link>,
    directories: set<Path>,
    metadata: map<Path, Entry>,
    whiteouts: set<Path>,
    opaques: set<Path>)

  datatype Totals = Totals(members: nat, expanded: nat)

  const EMPTY_LAYER := Layer(map[], map[], {}, map[], {}, {})

  // ---- What one member means ----

  datatype Role =
    | Ignored
    | Rejected
    | MakesDirectory(path: Path, entry: Entry)
    | MakesOpaque(path: Path, directory: Path)
    | MakesWhiteout(path: Path, target: Path)
    | MakesLink(path: Path, link: Link, entry: Entry, size: nat)
    | MakesFile(path: Path, data: Bytes, entry: Entry, size: nat)

  function StripSlashes(s: string): string
    decreases |s|
  {
    if s != "" && s[|s| - 1] == '/' then StripSlashes(s[..|s| - 1]) else s
  }

  function PathOf(text: string): Path {
    if text == "." then ["."] else Segments(text)
  }

  /** `PurePosixPath(name).name`; the path `.` has no name. */
  function Basename(p: Path): string {
    if p == [] || p == ["."] then "" else p[|p| - 1]
  }

  function Parent(p: Path): Path {
    if |p| <= 1 then ["."] else p[..|p| - 1]
  }

  /** `str(parent / name)`. */
  function Child(parent: Path, name: string): Path {
    if name == "" || name == "." then parent
    else if parent == ["."] then [name]
    else parent + [name]
  }

  /** The normalised member name: None when `_archive_member_name` refuses it. */
  function MemberPath(text: string): (p: Option<Path>) {
    if SafeMember(text) then Some(PathOf(text)) else None
  }

  function WhiteoutTarget(path: Path): Path
    requires WHITEOUT_PREFIX <= Basename(path)
  {
    Child(Parent(path), Basename(path)[|WHITEOUT_PREFIX|..])
  }

  function RoleAt(path: Path, m: Member): Role {
    if m.kind == DirectoryMember then MakesDirectory(path, Entry(Directory, m.attributes, None, None))
    else if m.kind == SpecialMember then Rejected
    else if Basename(path) == OPAQUE_MARKER then MakesOpaque(path, Parent(path))
    else if WHITEOUT_PREFIX <= Basename(path) then MakesWhiteout(path, WhiteoutTarget(path))
    else if m.kind == RegularMember then
      MakesFile(path, m.data, Entry(File, m.attributes, Some(m.data), None), m.size)
    else
      var hard := m.kind == HardlinkMember;
      MakesLink(path, Link(m.linkName, hard),
                Entry(if hard then Hardlink else Symlink, m.attributes, None, Some(m.linkName)), m.size)
  }

  function RoleOf(m: Member): Role {
    var text := StripSlashes(m.name);
    if text == "" then Ignored
    else
      match MemberPath(text)
      case None => Rejected
      case Some(path) => RoleAt(path, m)
  }

  function Roles(members: seq<Member>): seq<Role> {
    seq(|members|, i requires 0 <= i < |members| => RoleOf(members[i]))
  }

  function Carries(role: Role): nat {
    if role.MakesLink? || role.MakesFile? then role.size else 0
  }

  function AddDirectory(layer: Layer, p: Path, e: Entry): Layer {
    layer.(directories := layer.directories + {p}, metadata := layer.metadata[p := e])
  }

  function AddLink(layer: Layer, p: Path, link: Link, e: Entry): Layer {
    layer.(links := layer.links[p := link], metadata := layer.metadata[p := e])
  }

  function AddFile(layer: Layer, p: Path, data: Bytes, e: Entry): Layer {
    layer.(files := layer.files[p := data], metadata := layer.metadata[p := e])
  }

  function Add(layer: Layer, role: Role): Layer {
    match role
    case MakesDirectory(p, e) => AddDirectory(layer, p, e)
    case MakesOpaque(_, d) => layer.(opaques := layer.opaques + {d})
    case MakesWhiteout(_, t) => layer.(whiteouts := layer.whiteouts + {t})
    case MakesLink(p, link, e, _) => AddLink(layer, p, link, e)
    case MakesFile(p, data, e, _) => AddFile(layer, p, data, e)
    case _ => layer
  }

  /** The layer that a member sequence describes. */
  function Scanned(roles: seq<Role>): Layer {
    if roles == [] then EMPTY_LAYER
    else Add(Scanned(roles[..|roles| - 1]), roles[|roles| - 1])
  }

  function Carried(roles: seq<Role>): nat {
    if roles == [] then 0
    else Carried(roles[..|roles| - 1]) + Carries(roles[|roles| - 1])
  }

  predicate Names(role: Role) {
    !role.Ignored? && !role.Rejected?
  }

  /** No member is rejected for its name or type, and no two members share a path. */
  predicate WellNamed(roles: seq<Role>) {
    && (forall i :: 0 <= i < |roles| ==> !roles[i].Rejected?)
    && (forall i, j :: 0 <= i < j < |roles| && Names(roles[i]) && Names(roles[j]) ==> roles[i].path != roles[j].path)
  }

  predicate WithinBounds(roles: seq<Role>, before: Totals) {
    && |roles| <= MAX_ARCHIVE_MEMBERS
    && before.members + |roles| <= MAX_OCI_MEMBERS
    && (forall i :: 0 <= i < |roles| ==> Carries(roles[i]) <= MAX_SINGLE_FILE_BYTES)
    && Carried(roles) <= MAX_ARCHIVE_BYTES
    && before.expanded + Carried(roles) <= MAX_OCI_EXPANDED_BYTES
  }

  predicate Accepted(roles: seq<Role>, before: Totals) {
    WellNamed(roles) && WithinBounds(roles, before)
  }

  predicate TotalsOk(t: Totals) {
    t.members <= MAX_OCI_MEMBERS && t.expanded <= MAX_OCI_EXPANDED_BYTES
  }

  // ---- The reader ----

  /** The paths that the members name: the reader's `seen`. */
  function Seen(roles: seq<Role>): set<Path> {
    if roles == [] then {}
    else Seen(roles[..|roles| - 1]) + (if Names(roles[|roles| - 1]) then {roles[|roles| - 1].path} else {})
  }

  lemma {:induction false} SeenIsListed(roles: seq<Role>, p: Path)
    ensures p in Seen(roles) <==> exists k :: 0 <= k < |roles| && Names(roles[k]) && roles[k].path == p
  {
    if roles != [] {
      var init := roles[..|roles| - 1];
      SeenIsListed(init, p);
      if p in Seen(init) {
        var k :| 0 <= k < |init| && Names(init[k]) && init[k].path == p;
        assert roles[k] == init[k];
      } else if exists k :: 0 <= k < |init| && Names(roles[k]) && roles[k].path == p {
        var k :| 0 <= k < |init| && Names(roles[k]) && roles[k].path == p;
        assert init[k] == roles[k];
      }
    }
  }

  lemma WellNamedSnoc(roles: seq<Role>, role: Role)
    ensures WellNamed(roles + [role]) <==>
              WellNamed(roles) && !role.Rejected? && (Names(role) ==> role.path !in Seen(roles))
    ensures Seen(roles + [role]) == Seen(roles) + (if Names(role) then {role.path} else {})
    ensures Scanned(roles + [role]) == Add(Scanned(roles), role)
  {
    var all := roles + [role];
    assert all[|roles|] == role && all[..|all| - 1] == roles;
    assert forall i :: 0 <= i < |roles| ==> all[i] == roles[i];
    if Names(role) {
      SeenIsListed(roles, role.path);
    }
    if WellNamed(roles) && !role.Rejected? && (Names(role) ==> role.path !in Seen(roles)) {
      forall i, j | 0 <= i < j < |all| && Names(all[i]) && Names(all[j])
        ensures all[i].path != all[j].path
      {
        assert all[i] == roles[i];
      }
    }
    if WellNamed(all) {
      forall k | 0 <= k < |roles| && Names(roles[k]) && Names(role)
        ensures roles[k].path != role.path
      {
        assert Names(all[k]) && Names(all[|roles|]);
      }
      forall i, j | 0 <= i < j < |roles| && Names(roles[i]) && Names(roles[j])
        ensures roles[i].path != roles[j].path
      {
        assert Names(all[i]) && Names(all[j]);
      }
      forall i | 0 <= i < |all| ensures !all[i].Rejected? {}
      assert forall i :: 0 <= i < |roles| ==> !all[i].Rejected?;
      assert !all[|roles|].Rejected?;
    }
  }

  lemma BoundsSnoc(roles: seq<Role>, role: Role, before: Totals)
    ensures Carried(roles + [role]) == Carried(roles) + Carries(role)
    ensures WithinBounds(roles + [role], before) <==>
              && WithinBounds(roles, before)
              && |roles| + 1 <= MAX_ARCHIVE_MEMBERS
              && before.members + |roles| + 1 <= MAX_OCI_MEMBERS
              && Carries(role) <= MAX_SINGLE_FILE_BYTES
              && Carried(roles) + Carries(role) <= MAX_ARCHIVE_BYTES
              && before.expanded + Carried(roles) + Carries(role) <= MAX_OCI_EXPANDED_BYTES
  {
    var all := roles + [role];
    assert all[..|all| - 1] == roles && all[|all| - 1] == role;
    assert forall i :: 0 <= i < |roles| ==> all[i] == roles[i];
  }

  /** Once a prefix is unacceptable the whole layer is. */
  lemma {:induction false} PrefixAccepted(roles: seq<Role>, before: Totals, k: nat)
    requires k <= |roles| && Accepted(roles, before)
    ensures Accepted(roles[..k], before)
    decreases |roles| - k
  {
    if k == |roles| {
      assert roles[..k] == roles;
    } else {
      PrefixAccepted(roles, before, k + 1);
      assert roles[..k + 1] == roles[..k] + [roles[k]];
      WellNamedSnoc(roles[..k], roles[k]);
      BoundsSnoc(roles[..k], roles[k], before);
    }
  }

  /** The checks one member must pass. */
  function Problem(role: Role, count: nat, total: nat, before: Totals, seen: set<Path>): Option<string> {
    if count + 1 > MAX_ARCHIVE_MEMBERS then Some("final image layer has too many members")
    else if before.members + count + 1 > MAX_OCI_MEMBERS then
      Some("final image layers exceed aggregate member bound")
    else if role.Rejected? then Some("final image layer member is unsafe, a link or a special file")
    else if Names(role) && role.path in seen then Some("final image layer repeats member path")
    else if Carries(role) > MAX_SINGLE_FILE_BYTES then Some("final image layer member is too large")
    else if total + Carries(role) > MAX_ARCHIVE_BYTES then Some("final image layer expands beyond its bound")
    else if before.expanded + total + Carries(role) > MAX_OCI_EXPANDED_BYTES then
      Some("final image layers exceed aggregate expanded bound")
    else None
  }

  lemma NextMember(prefix: seq<Role>, role: Role, before: Totals)
    requires TotalsOk(before) && Accepted(prefix, before)
    ensures Accepted(prefix + [role], before) <==>
              Problem(role, |prefix|, Carried(prefix), before, Seen(prefix)) == None
    ensures Seen(prefix + [role]) == Seen(prefix) + (if Names(role) then {role.path} else {})
    ensures Scanned(prefix + [role]) == Add(Scanned(prefix), role)
    ensures Carried(prefix + [role]) == Carried(prefix) + Carries(role)
  {
    WellNamedSnoc(prefix, role);
    BoundsSnoc(prefix, role, before);
  }

  method ReadRoles(roles: seq<Role>, before: Totals) returns (r: Result<(Layer, Totals), string>)
    requires TotalsOk(before)
    ensures r.Ok? <==> Accepted(roles, before)
    ensures r.Ok? ==> r.value.0 == Scanned(roles)
    ensures r.Ok? ==> r.value.1 == Totals(before.members + |roles|, before.expanded + Carried(roles))
    ensures r.Ok? ==> TotalsOk(r.value.1)
  {
    var layer := EMPTY_LAYER;
    var seen: set<Path> := {};
    var total := 0;
    var i := 0;
    while i < |roles|
      invariant 0 <= i <= |roles|
      invariant Accepted(roles[..i], before)
      invariant layer == Scanned(roles[..i]) && total == Carried(roles[..i])
      invariant seen == Seen(roles[..i])
    {
      var role := roles[i];
      ghost var prefix := roles[..i];
      assert roles[..i + 1] == prefix + [role];
      NextMember(prefix, role, before);
      var problem := Problem(role, i, total, before, seen);
      if problem.Some? {
        if Accepted(roles, before) {
          PrefixAccepted(roles, before, i + 1);
        }
        return Err(problem.value);
      }
      seen := seen + (if Names(role) then {role.path} else {});
      total := total + Carries(role);
      layer := Add(layer, role);
      i := i + 1;
    }
    assert roles[..|roles|] == roles;
    return Ok((layer, Totals(before.members + |roles|, before.expanded + total)));
  }

  method ReadLayer(members: seq<Member>, before: Totals) returns (r: Result<(Layer, Totals), string>)
    requires TotalsOk(before)
    ensures r.Ok? <==> Accepted(Roles(members), before)
    ensures r.Ok? ==> r.value.0 == Scanned(Roles(members)) && Coherent(r.value.0)
    ensures r.Ok? ==> r.value.1 == Totals(before.members + |members|, before.expanded + Carried(Roles(members)))
    ensures r.Ok? ==> TotalsOk(r.value.1)
  {
    r := ReadRoles(Roles(members), before);
    if r.Ok? {
      RolesWellFormed(members);
      ScannedCoherent(Roles(members));
    }
  }

  // ---- What an accepted layer looks like ----

  predicate NameOk(p: Path) {
    p == ["."] || (p != [] && AllPlain(p))
  }

  /** The collections of one layer agree: each recorded path is a file, a link or a directory and
      only that, and its metadata says so. */
  predicate Coherent(layer: Layer) {
    && layer.metadata.Keys == layer.files.Keys + layer.links.Keys + layer.directories
    && layer.files.Keys !! layer.links.Keys
    && layer.files.Keys !! layer.directories
    && layer.links.Keys !! layer.directories
    && (forall p :: p in layer.metadata ==> NameOk(p))
    && (forall p :: p in layer.files ==>
          layer.metadata[p].kind == File && layer.metadata[p].data == Some(layer.files[p]))
    && (forall p :: p in layer.links ==>
          && layer.metadata[p].kind == (if layer.links[p].hardlink then Hardlink else Symlink)
          && layer.metadata[p].data == None
          && layer.metadata[p].target == Some(layer.links[p].target))
    && (forall p :: p in layer.directories ==> layer.metadata[p].kind == Directory)
  }

  predicate WellFormed(role: Role) {
    && (Names(role) ==> NameOk(role.path))
    && (role.MakesDirectory? ==> role.entry.kind == Directory)
    && (role.MakesFile? ==> role.entry.kind == File && role.entry.data == Some(role.data))
    && (role.MakesLink? ==>
          && role.entry.kind == (if role.link.hardlink then Hardlink else Symlink)
          && role.entry.data == None && role.entry.target == Some(role.link.target))
  }

  lemma RoleAtWellFormed(path: Path, m: Member)
    requires NameOk(path)
    ensures WellFormed(RoleAt(path, m))
  {
  }

  lemma RoleWellFormed(m: Member)
    ensures WellFormed(RoleOf(m))
  {
    var text := StripSlashes(m.name);
    if text != "" && MemberPath(text).Some? {
      SafeMemberIsCanonical(text);
      RoleAtWellFormed(MemberPath(text).value, m);
    }
  }

  lemma RolesWellFormed(members: seq<Member>)
    ensures forall i :: 0 <= i < |members| ==> WellFormed(Roles(members)[i])
  {
    forall i | 0 <= i < |members| ensures WellFormed(Roles(members)[i]) {
      RoleWellFormed(members[i]);
    }
  }

  lemma AddDirectoryCoherent(layer: Layer, p: Path, e: Entry)
    requires Coherent(layer) && p !in layer.metadata && NameOk(p) && e.kind == Directory
    ensures Coherent(AddDirectory(layer, p, e))
  {
  }

  lemma AddLinkCoherent(layer: Layer, p: Path, link: Link, e: Entry)
    requires Coherent(layer) && p !in layer.metadata && NameOk(p)
    requires e.kind == (if link.hardlink then Hardlink else Symlink)
    requires e.data == None && e.target == Some(link.target)
    ensures Coherent(AddLink(layer, p, link, e))
  {
  }

  lemma AddFileCoherent(layer: Layer, p: Path, data: Bytes, e: Entry)
    requires Coherent(layer) && p !in layer.metadata && NameOk(p) && e.kind == File && e.data == Some(data)
    ensures Coherent(AddFile(layer, p, data, e))
  {
  }

  lemma AddCoherent(layer: Layer, role: Role)
    requires Coherent(layer) && WellFormed(role)
    requires Names(role) ==> role.path !in layer.metadata
    ensures Coherent(Add(layer, role))
  {
    match role
    case MakesDirectory(p, e) => AddDirectoryCoherent(layer, p, e);
    case MakesLink(p, link, e, _) => AddLinkCoherent(layer, p, link, e);
    case MakesFile(p, data, e, _) => AddFileCoherent(layer, p, data, e);
    case _ =>
  }

  lemma {:induction false} RecordedIsSeen(roles: seq<Role>)
    ensures Scanned(roles).metadata.Keys <= Seen(roles)
  {
    if roles != [] {
      RecordedIsSeen(roles[..|roles| - 1]);
    }
  }

  /** The files, links and directories of an accepted layer are disjoint and all recorded. */
  lemma {:induction false} ScannedCoherent(roles: seq<Role>)
    requires WellNamed(roles)
    requires forall i :: 0 <= i < |roles| ==> WellFormed(roles[i])
    ensures Coherent(Scanned(roles))
  {
    if roles != [] {
      var init, role := roles[..|roles| - 1], roles[|roles| - 1];
      assert roles == init + [role];
      WellNamedSnoc(init, role);
      ScannedCoherent(init);
      RecordedIsSeen(init);
      AddCoherent(Scanned(init), role);
    }
  }
}
