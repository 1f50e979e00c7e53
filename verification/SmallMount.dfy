/** A mount that meets what whole runs assume: a directory "/d" with a file "/d/a", the mode of both and
    the contents of the file as their attributes, all of which can change. */
module SmallMounts {
  import opened Paths
  import opened PathBuffers
  import opened Endpoints
  import opened OpenFiles
  import opened Readdirs
  import opened Mounts
  import opened SharedMounts

  datatype Status = Status(mode: nat, contents: nat)

  datatype Tree = Tree(d: Status, a: Status)

  const PATHS: iset<string> := iset{"/", "/d", "/d/a"}

  /** Two separators in front are as good as one. */
  function Resolve(path: string): string {
    if |path| >= 2 && path[0] == '/' && path[1] == '/' then path[1..] else path
  }

  function Lookup(tree: Tree, path: string): Reply<Status> {
    var p := Resolve(path);
    if p == "/" then Found(Status(0, 0)) else if p == "/d" then Found(tree.d)
    else if p == "/d/a" then Found(tree.a) else Failed(2)
  }

  function Apply(tree: Tree, op: Op): (Tree, int) {
    if op.Chmod? && Resolve(op.path) == "/d" then (tree.(d := tree.d.(mode := op.mode)), 0)
    else if op.Chmod? && Resolve(op.path) == "/d/a" then (tree.(a := tree.a.(mode := op.mode)), 0)
    else (tree, 1)
  }

  function ListTree(tree: Tree, path: string): (seq<DirEntry<Status>>, int) {
    if path == "/" then ([DirEntry("d", tree.d)], 0)
    else if path == "/d" then
      ([DirEntry(".", tree.d), DirEntry("..", Status(0, 0)), DirEntry("a", tree.a)], 0)
    else ([], 2)
  }

  function OpenTree(tree: Tree, path: string): int {
    if Resolve(path) == "/d/a" then 0 else 2
  }

  function CreateTree(tree: Tree, path: string): (Tree, int) {
    if Resolve(path) == "/d/a" then (tree.(a := Status(0, 0)), 0) else (tree, 2)
  }

  function WriteTree(tree: Tree, path: string, data: nat): (Tree, int) {
    if Resolve(path) == "/d/a" then (tree.(a := tree.a.(contents := data)), 1) else (tree, -1)
  }

  const SERVER: Server<Tree, Status> := Server(ListTree, OpenTree, CreateTree, WriteTree)

  lemma DirPaths()
    ensures Canonical("/d") && EntryPath("/d", ".") == "/d" && EntryPath("/d", "..") == "/"
    ensures EntryPath("/d", "a") == "/d/a"
  {
    assert LastSeparator("/d"[..1]) == 0;
  }

  lemma NamesOfThree<A>(x: DirEntry<A>, y: DirEntry<A>, z: DirEntry<A>)
    ensures Names([x, y, z]) == [x.name, y.name, z.name]
  {
  }

  lemma InUse(p: string)
    requires p in PATHS
    ensures Resolve(p) == p && (p == "/" || p == "/d" || p == "/d/a")
  {
  }

  lemma ChangesApart()
    ensures OwnPathOnly(Lookup, Apply, PATHS)
    ensures forall p :: p in PATHS ==> CreatesAt(Lookup, CreatingOf(SERVER, p), p, PATHS)
    ensures forall p, data :: p in PATHS ==> WritesAt(Lookup, EffectOf(SERVER, p, data), p, PATHS)
  {
    hide Resolve, PATHS;
    forall p | p in PATHS ensures Resolve(p) == p && (p == "/" || p == "/d" || p == "/d/a") {
      InUse(p);
    }
    forall p | p in PATHS ensures CreatesAt(Lookup, CreatingOf(SERVER, p), p, PATHS) {
      assert forall s: Tree :: CreatingOf(SERVER, p)(s) == CreateTree(s, p);
    }
    forall p, data: nat | p in PATHS ensures WritesAt(Lookup, EffectOf(SERVER, p, data), p, PATHS) {
      assert forall s: Tree :: EffectOf(SERVER, p, data)(s) == WriteTree(s, p, data);
    }
  }

  lemma ListsWell(tree: Tree)
    ensures var listing := SERVER.list(tree, "/d").0;
      Canonical("/d") && Listable("/d", listing, PATHS) && TrueEntries(Lookup, tree, "/d", listing)
  {
    DirPaths();
    NamesOfThree(DirEntry(".", tree.d), DirEntry("..", Status(0, 0)), DirEntry("a", tree.a));
  }

  /** It meets the assumptions of Run. */
  lemma SmallMountSound()
    ensures Sound(Lookup, Apply, SERVER, PATHS)
  {
    hide PATHS, Listable, TrueEntries, OwnPathOnly, CreatesAt, WritesAt, Lookup;
    ChangesApart();
    forall s: Tree, p: string | p in PATHS && Canonical(p) && p != "/"
      ensures Listable(p, SERVER.list(s, p).0, PATHS) && TrueEntries(Lookup, s, p, SERVER.list(s, p).0)
    {
      InUse(p);
      ListsWell(s);
      if p == "/d/a" {
        NothingListed(s);
      }
    }
  }

  lemma NothingListed(tree: Tree)
    ensures var listing := SERVER.list(tree, "/d/a").0;
      Listable("/d/a", listing, PATHS) && TrueEntries(Lookup, tree, "/d/a", listing)
  {
  }

  /** It is a mount whose root lists what can change: StaleAtRoot is about the change of mode of "/d". */
  lemma SmallMountStale(tree: Tree, mode: nat)
    requires mode != tree.d.mode
    ensures SlashBlind(Lookup) && OwnObjectOnly(Lookup, Apply, PATHS + iset{"//d"})
    ensures var listing := SERVER.list(tree, "/").0;
      && Listable("/", listing, PATHS + iset{"//d"}) && listing[0].name == "d" && IsLast("/", listing, 0, |listing|)
      && Lookup(tree, EntryPath("/", listing[0].name)) == Found(listing[0].stat)
    ensures Apply(tree, Chmod("/d", mode)).1 == 0
    ensures Lookup(Apply(tree, Chmod("/d", mode)).0, "/d") != Lookup(tree, "/d")
  {
    forall s: Tree, p: string | Plain(p) ensures Lookup(s, Doubled(p)) == Lookup(s, p) {
      assert Doubled(p)[1..] == p;
    }
    assert Names(SERVER.list(tree, "/").0) == ["d"];
    assert EntryPath("/", "d") == "//d" && "//d"[1..] == "/d";
  }

  /** While others are at work, both its directories can be listed: what RunAmongOthers assumes holds. */
  lemma SmallMountShared()
    ensures var known := PATHS + iset{"//d"};
      ListsTruly(Lookup, SERVER, "/", known) && ListsTruly(Lookup, SERVER, "/d", known)
  {
    hide PATHS;
    forall s: Tree
      ensures var known := PATHS + iset{"//d"};
        && Listable("/", SERVER.list(s, "/").0, known) && TrueEntries(Lookup, s, "/", SERVER.list(s, "/").0)
        && Listable("/d", SERVER.list(s, "/d").0, known) && TrueEntries(Lookup, s, "/d", SERVER.list(s, "/d").0)
    {
      ListsWell(s);
      assert Names(SERVER.list(s, "/").0) == ["d"];
      assert EntryPath("/", "d") == "//d" && "//d"[1..] == "/d";
    }
  }
}
