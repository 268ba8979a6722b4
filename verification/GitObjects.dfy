/**
 The object model shared by fetch and push: what an object body decodes to, the
 ids it refers to, and the hypotheses content addressing gives about them.
 */
module GitObjects {
  import opened Reachability

  datatype Kind = Blob | Tree | Commit | Tag

  /** A tree entry by mode. A gitlink names a commit of another repository. */
  datatype TreeEntry = Subtree(oid: Oid) | Leaf(oid: Oid) | Gitlink(oid: Oid)

  datatype Object =
    | BlobObject(size: nat)
    | TreeObject(entries: seq<TreeEntry>)
    | CommitObject(tree: Oid, parents: seq<Oid>)
    | TagObject(target: Oid)

  /** Objects by id. An id determines its content, so one map serves every reader. */
  type Objects = map<Oid, Object>

  datatype WalkError =
    | MissingObject(missing: Oid)
    | UnexpectedKind(oid: Oid, expected: Kind, actual: Kind)
    | UnknownWant(want: Oid)
    | UnsupportedWant(target: Oid, kind: Kind)
    | DiscoveryStalled(unresolved: set<Oid>)
    | StoreFailure

  datatype Result<T> = Ok(value: T) | Err(error: WalkError)

  /** The first id in the list without a record. */
  ghost predicate FirstMissing(objects: Objects, ids: seq<Oid>, e: WalkError) {
    exists i ::
      && 0 <= i < |ids| && ids[i] !in objects && e == MissingObject(ids[i])
      && forall j :: 0 <= j < i ==> ids[j] in objects
  }

  function KindOf(o: Object): Kind {
    match o
    case BlobObject(_) => Blob
    case TreeObject(_) => Tree
    case CommitObject(_, _) => Commit
    case TagObject(_) => Tag
  }

  function EntryChildren(entries: seq<TreeEntry>): (r: seq<Oid>)
    ensures forall c :: c in r <==> Subtree(c) in entries || Leaf(c) in entries
  {
    if entries == [] then []
    else
      var rest := EntryChildren(entries[1..]);
      assert entries == [entries[0]] + entries[1..];
      if entries[0].Gitlink? then rest else [entries[0].oid] + rest
  }

  function Subtrees(entries: seq<TreeEntry>): (r: seq<Oid>)
    ensures forall c :: c in r <==> Subtree(c) in entries
  {
    if entries == [] then []
    else
      var rest := Subtrees(entries[1..]);
      assert entries == [entries[0]] + entries[1..];
      if entries[0].Subtree? then [entries[0].oid] + rest else rest
  }

  /** The ids an object refers to, gitlinks left out. */
  function Children(o: Object): seq<Oid> {
    match o
    case BlobObject(_) => []
    case TreeObject(entries) => EntryChildren(entries)
    case CommitObject(tree, parents) => [tree] + parents
    case TagObject(target) => [target]
  }

  ghost function ObjectEdges(objects: Objects): Edges {
    map x | x in objects :: Children(objects[x])
  }

  ghost function SubtreeEdges(objects: Objects): Edges {
    map x | x in objects && objects[x].TreeObject? :: Subtrees(objects[x].entries)
  }

  /** The whole closure of `roots`: every object a client needs to use them. */
  ghost predicate InClosure(objects: Objects, roots: set<Oid>, x: Oid) {
    Reachable(ObjectEdges(objects), roots, x)
  }

  /** Hashes cannot form a cycle: references go to strictly lower ranks. */
  ghost predicate Acyclic(objects: Objects, rank: Oid -> nat) {
    forall x, c :: x in objects && c in Children(objects[x]) ==> rank(c) < rank(x)
  }

  /**
   An id fixes the kind of its object, stored or not, and whoever names the id agrees on it:
   tree entries by mode, commits for their root tree and parents.
   */
  ghost predicate KindsAgree(objects: Objects, kind: Oid -> Kind) {
    && (forall x :: x in objects ==> kind(x) == KindOf(objects[x]))
    && (forall x :: x in objects && objects[x].TreeObject? ==> ModesAgree(objects[x].entries, kind))
    && (forall x :: x in objects && objects[x].CommitObject? ==>
          kind(objects[x].tree) == Tree && forall p :: p in objects[x].parents ==> kind(p) == Commit)
  }

  ghost predicate ModesAgree(entries: seq<TreeEntry>, kind: Oid -> Kind) {
    && (forall c :: Subtree(c) in entries ==> kind(c) == Tree)
    && (forall c :: Leaf(c) in entries ==> kind(c) == Blob)
  }
}
