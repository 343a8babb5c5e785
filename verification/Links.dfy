/**
 Link counts.  Directories, link counts and references as sys_link, sys_unlink, create and iput
 change them.  What sys_link, sys_unlink and create do while they hold a directory or an inode is
 one step, and so are the test and the decrement of iput, between which it holds no lock; any
 number of processes can be in the middle of sys_link, sys_unlink and iput.
 */
module Links {

  // An allocated inode.  `parent` is what .. of a directory names; `linked` and `name` say
  // whether and as what the directory is entered there.  `leaving` of its references belong to
  // calls of iput that have made their test and still have to decrement.
  datatype Node = Node(dir: bool, nlink: int, ref: nat, leaving: nat, parent: nat, linked: bool, name: string)

  // sys_link between counting the link and entering it, sys_unlink between erasing the entry and
  // uncounting it.
  datatype Op = Linking(ip: nat) | Dropping(ip: nat)

  // `entries` are the directory entries other than . and .., by directory and name.
  datatype Space = Space(nodes: map<nat, Node>, entries: map<(nat, string), nat>, ops: map<nat, Op>)

  // --- what should be counted ---------------------------------------------------------------

  function Names(m: Space, i: nat): set<(nat, string)> {
    set k | k in m.entries && m.entries[k] == i
  }

  // The directories whose .. names i, except unlinked ones.
  function Subs(m: Space, i: nat): set<nat> {
    set d | d in m.nodes && m.nodes[d].dir && m.nodes[d].linked && m.nodes[d].parent == i
  }

  function OpsOn(m: Space, i: nat): set<nat> {
    set p | p in m.ops && m.ops[p].ip == i
  }

  ghost predicate Empty(m: Space, d: nat) {
    forall k :: k in m.entries ==> k.0 != d
  }

  // --- steps --------------------------------------------------------------------------------------

  // Somebody holds i, an entry names it, or .. of some directory does.
  ghost predicate Findable(m: Space, i: nat)
    requires i in m.nodes
  {
    || m.nodes[i].ref > m.nodes[i].leaving || Names(m, i) != {}
    || exists d :: d in m.nodes && m.nodes[d].dir && m.nodes[d].parent == i
  }

  // namei, iget, idup
  ghost predicate Get(m: Space, m': Space, i: nat) {
    && i in m.nodes && Findable(m, i)
    && m' == m.(nodes := m.nodes[i := m.nodes[i].(ref := m.nodes[i].ref + 1)])
  }

  // iput up to releasesleep, by somebody whose reference is not one of those that sys_link,
  // sys_unlink or another iput are still using: the inode is freed if this is the last reference.
  ghost predicate PutTest(m: Space, m': Space, i: nat) {
    && i in m.nodes && m.nodes[i].ref > |OpsOn(m, i)| + m.nodes[i].leaving
    && m' == if Frees(m, i) then Freed(m, i)
             else m.(nodes := m.nodes[i := m.nodes[i].(leaving := m.nodes[i].leaving + 1)])
  }

  // The rest of iput; what was freed has no reference left to drop.
  ghost predicate PutDrop(m: Space, m': Space, i: nat) {
    && i in m.nodes && m.nodes[i].leaving > 0 && m.nodes[i].ref > 0
    && m' == m.(nodes := m.nodes[i := m.nodes[i].(ref := m.nodes[i].ref - 1, leaving := m.nodes[i].leaving - 1)])
  }

  // Truncating a directory erases its entries.
  ghost function Without(entries: map<(nat, string), nat>, d: nat): map<(nat, string), nat> {
    map k | k in entries && k.0 != d :: entries[k]
  }

  // What is left when i has been freed.
  ghost function Freed(m: Space, i: nat): Space {
    m.(nodes := m.nodes - {i}, entries := Without(m.entries, i))
  }

  ghost predicate Frees(m: Space, i: nat)
    requires i in m.nodes
  {
    m.nodes[i].ref == 1 && m.nodes[i].nlink == 0
  }

  ghost predicate LinkStart(m: Space, m': Space, p: nat, i: nat) {
    && p !in m.ops && i in m.nodes && !m.nodes[i].dir && m.nodes[i].ref > |OpsOn(m, i)| + m.nodes[i].leaving
    && m' == m.(nodes := m.nodes[i := m.nodes[i].(nlink := m.nodes[i].nlink + 1)], ops := m.ops[p := Linking(i)])
  }

  // A directory that somebody can lock: they have a reference, and nobody holds the lock in sys_unlink.
  ghost predicate Lockable(m: Space, d: nat) {
    && d in m.nodes && m.nodes[d].dir && m.nodes[d].ref > m.nodes[d].leaving
    && forall p :: p in m.ops ==> m.ops[p] != Dropping(d)
  }

  ghost predicate LinkFinish(m: Space, m': Space, p: nat, d: nat, name: string) {
    && p in m.ops && m.ops[p].Linking? && Lockable(m, d) && (d, name) !in m.entries
    && m' == m.(entries := m.entries[(d, name) := m.ops[p].ip], ops := m.ops - {p})
  }

  ghost predicate LinkAbort(m: Space, m': Space, p: nat) {
    && p in m.ops && m.ops[p].Linking? && m.ops[p].ip in m.nodes
    && var i := m.ops[p].ip;
       m' == m.(nodes := m.nodes[i := m.nodes[i].(nlink := m.nodes[i].nlink - 1)], ops := m.ops - {p})
  }

  ghost predicate UnlinkPanics(m: Space, i: nat)
    requires i in m.nodes
  {
    m.nodes[i].nlink < 1
  }

  ghost predicate UnlinkEntry(m: Space, m': Space, p: nat, d: nat, name: string) {
    && p !in m.ops && Lockable(m, d) && (d, name) in m.entries && m.entries[(d, name)] in m.nodes
    && var i := m.entries[(d, name)];
       var node := m.nodes[i].(ref := m.nodes[i].ref + 1);
       && !UnlinkPanics(m, i)
       && if m.nodes[i].dir then
            && Empty(m, i) && i != d
            && m' == Space(m.nodes[i := node.(linked := false)][d := m.nodes[d].(nlink := m.nodes[d].nlink - 1)],
                           m.entries - {(d, name)}, m.ops[p := Dropping(i)])
          else
            m' == Space(m.nodes[i := node], m.entries - {(d, name)}, m.ops[p := Dropping(i)])
  }

  ghost predicate UnlinkDrop(m: Space, m': Space, p: nat) {
    && p in m.ops && m.ops[p].Dropping? && m.ops[p].ip in m.nodes
    && var i := m.ops[p].ip;
       m' == m.(nodes := m.nodes[i := m.nodes[i].(nlink := m.nodes[i].nlink - 1)], ops := m.ops - {p})
  }

  ghost predicate CreateFile(m: Space, m': Space, d: nat, name: string, i: nat) {
    && Lockable(m, d) && (d, name) !in m.entries && i !in m.nodes
    && m' == m.(nodes := m.nodes[i := Node(false, 1, 1, 0, 0, false, "")], entries := m.entries[(d, name) := i])
  }

  ghost predicate CreateDir(m: Space, m': Space, d: nat, name: string, i: nat) {
    && Lockable(m, d) && (d, name) !in m.entries && i !in m.nodes
    && m' == m.(nodes := m.nodes[d := m.nodes[d].(nlink := m.nodes[d].nlink + 1)][i := Node(true, 1, 1, 0, d, true, name)],
                entries := m.entries[(d, name) := i])
  }

  // --- the invariant ---------------------------------------------------------------------------

  // Every link is counted, and so is every one about to be entered or uncounted.
  ghost predicate CountOk(m: Space, i: nat)
    requires i in m.nodes
  {
    && m.nodes[i].nlink == |Names(m, i)| + |Subs(m, i)| + |OpsOn(m, i)|
    && |OpsOn(m, i)| + m.nodes[i].leaving <= m.nodes[i].ref
  }

  ghost predicate DirOk(root: nat, m: Space, d: nat)
    requires d in m.nodes
  {
    m.nodes[d].dir && m.nodes[d].linked && d != root ==>
      var k := (m.nodes[d].parent, m.nodes[d].name); k in m.entries && m.entries[k] == d
  }

  ghost predicate EntryOk(root: nat, m: Space, k: (nat, string))
    requires k in m.entries
  {
    && k.0 in m.nodes && m.nodes[k.0].dir && m.nodes[k.0].linked && m.entries[k] in m.nodes
    && (m.nodes[m.entries[k]].dir ==>
          var n := m.nodes[m.entries[k]]; n.linked && (n.parent, n.name) == k && m.entries[k] != root)
  }

  ghost predicate OpOk(m: Space, p: nat)
    requires p in m.ops
  {
    && m.ops[p].ip in m.nodes
    && (m.ops[p].Linking? ==> !m.nodes[m.ops[p].ip].dir)
    && (m.ops[p].Dropping? && m.nodes[m.ops[p].ip].dir ==> !m.nodes[m.ops[p].ip].linked)
  }

  ghost predicate ShapeOk(root: nat, m: Space) {
    && root in m.nodes && m.nodes[root].dir && m.nodes[root].linked && m.nodes[root].parent == root
    && (forall d :: d in m.nodes ==> DirOk(root, m, d))
    && (forall k :: k in m.entries ==> EntryOk(root, m, k))
    && (forall p :: p in m.ops ==> OpOk(m, p))
  }

  ghost predicate Counted(m: Space) {
    forall i :: i in m.nodes ==> CountOk(m, i)
  }

  ghost predicate Inv(root: nat, m: Space) {
    ShapeOk(root, m) && Counted(m)
  }

  // The file system mkfs makes: a root directory that is its own parent, and the first process in it.
  ghost predicate Start(root: nat, m: Space) {
    && m.nodes == map[root := Node(true, 1, 1, 0, root, true, "")] && m.entries == map[] && m.ops == map[]
  }

  lemma StartInv(root: nat, m: Space)
    requires Start(root, m)
    ensures Inv(root, m)
  {
    assert Names(m, root) == {} && Subs(m, root) == {root} && OpsOn(m, root) == {};
  }

  // A directory has been unlinked exactly if its count is zero, once its lock is free.
  lemma UnlinkedExactly(root: nat, m: Space, d: nat)
    requires Inv(root, m) && Lockable(m, d)
    ensures m.nodes[d].nlink > 0 <==> m.nodes[d].linked
    ensures !m.nodes[d].linked ==> Empty(m, d)
  {
    assert DirOk(root, m, d) && CountOk(m, d);
    if m.nodes[d].linked {
      if d == root {
        assert root in Subs(m, d);
      } else {
        assert (m.nodes[d].parent, m.nodes[d].name) in Names(m, d);
      }
    } else {
      NothingLeft(root, m, d);
      forall p | p in m.ops ensures m.ops[p].ip != d {
        assert OpOk(m, p);
      }
      assert OpsOn(m, d) == {};
    }
  }

  lemma NothingLeft(root: nat, m: Space, d: nat)
    requires ShapeOk(root, m) && d in m.nodes && m.nodes[d].dir && !m.nodes[d].linked
    ensures Empty(m, d) && Names(m, d) == {} && Subs(m, d) == {}
  {
  }

  // --- every step keeps it -----------------------------------------------------------------------

  // Only counts and references of i change.
  lemma SameShape(root: nat, m: Space, m': Space, i: nat, node: Node)
    requires ShapeOk(root, m) && i in m.nodes && m'.nodes == m.nodes[i := node] && m'.entries == m.entries
    requires node == m.nodes[i].(nlink := node.nlink, ref := node.ref, leaving := node.leaving)
    requires forall p :: p in m'.ops ==> (p in m.ops && m'.ops[p] == m.ops[p]) || OpOk(m', p)
    ensures ShapeOk(root, m')
  {
    forall d | d in m'.nodes ensures DirOk(root, m', d) {
      assert DirOk(root, m, d);
    }
    forall k | k in m'.entries ensures EntryOk(root, m', k) {
      assert EntryOk(root, m, k);
    }
    forall p | p in m'.ops ensures OpOk(m', p) {
      if p in m.ops { assert OpOk(m, p); }
    }
  }

  lemma SameSubs(m: Space, m': Space, i: nat, node: Node, x: nat)
    requires i in m.nodes && m'.nodes == m.nodes[i := node]
    requires node == m.nodes[i].(nlink := node.nlink, ref := node.ref, leaving := node.leaving)
    ensures Subs(m', x) == Subs(m, x)
  {
  }

  lemma GetInv(root: nat, m: Space, m': Space, i: nat)
    requires Inv(root, m) && Get(m, m', i)
    ensures Inv(root, m')
  {
    SameShape(root, m, m', i, m'.nodes[i]);
    forall x | x in m'.nodes ensures CountOk(m', x) {
      assert CountOk(m, x);
      SameSubs(m, m', i, m'.nodes[i], x);
      assert Names(m', x) == Names(m, x) && OpsOn(m', x) == OpsOn(m, x);
    }
  }

  lemma PutInv(root: nat, m: Space, m': Space, i: nat)
    requires Inv(root, m) && ((PutTest(m, m', i) && !Frees(m, i)) || PutDrop(m, m', i))
    ensures Inv(root, m')
  {
    SameShape(root, m, m', i, m'.nodes[i]);
    forall x | x in m'.nodes ensures CountOk(m', x) {
      assert CountOk(m, x);
      SameSubs(m, m', i, m'.nodes[i], x);
      assert Names(m', x) == Names(m, x) && OpsOn(m', x) == OpsOn(m, x);
    }
  }

  // When iput frees an inode, nothing names it any more.
  lemma FreedIsUnnamed(root: nat, m: Space, i: nat)
    requires Inv(root, m) && i in m.nodes && m.nodes[i].nlink == 0
    ensures Names(m, i) == {} && Subs(m, i) == {} && OpsOn(m, i) == {} && i != root
    ensures m.nodes[i].dir ==> !m.nodes[i].linked
  {
    assert CountOk(m, i) && DirOk(root, m, i);
    assert i == root ==> root in Subs(m, i);
    var k := (m.nodes[i].parent, m.nodes[i].name);
    assert m.nodes[i].dir && m.nodes[i].linked && i != root ==> k in Names(m, i);
  }

  lemma FreeShape(root: nat, m: Space, m': Space, i: nat)
    requires ShapeOk(root, m) && i in m.nodes && m' == m.(nodes := m.nodes - {i}) && i != root
    requires Names(m, i) == {} && OpsOn(m, i) == {} && (m.nodes[i].dir ==> Empty(m, i))
    ensures ShapeOk(root, m')
  {
    forall d | d in m'.nodes ensures DirOk(root, m', d) {
      assert DirOk(root, m, d);
    }
    forall k | k in m'.entries ensures EntryOk(root, m', k) {
      assert EntryOk(root, m, k) && k !in Names(m, i);
    }
    forall p | p in m'.ops ensures OpOk(m', p) {
      assert OpOk(m, p) && p !in OpsOn(m, i);
    }
  }

  lemma FreeInv(root: nat, m: Space, m': Space, i: nat)
    requires Inv(root, m) && PutTest(m, m', i) && Frees(m, i)
    ensures Inv(root, m')
  {
    FreedIsUnnamed(root, m, i);
    if m.nodes[i].dir {
      NothingLeft(root, m, i);
    } else {
      forall k | k in m.entries ensures k.0 != i {
        assert EntryOk(root, m, k);
      }
    }
    assert Without(m.entries, i) == m.entries;
    FreeShape(root, m, m', i);
    forall x | x in m'.nodes ensures CountOk(m', x) {
      assert CountOk(m, x);
      FreeSame(m, m', i, x);
    }
  }

  lemma FreeSame(m: Space, m': Space, i: nat, x: nat)
    requires i in m.nodes && m' == m.(nodes := m.nodes - {i}) && (m.nodes[i].dir ==> !m.nodes[i].linked)
    ensures Names(m', x) == Names(m, x) && OpsOn(m', x) == OpsOn(m, x) && Subs(m', x) == Subs(m, x)
  {
  }

  // One process enters or leaves the middle of an operation on i.
  lemma OpsPlus(m: Space, m': Space, p: nat, op: Op, x: nat)
    requires p !in m.ops && m'.ops == m.ops[p := op]
    ensures |OpsOn(m', x)| == |OpsOn(m, x)| + (if x == op.ip then 1 else 0)
  {
    if x == op.ip {
      assert OpsOn(m', x) == OpsOn(m, x) + {p};
    } else {
      assert OpsOn(m', x) == OpsOn(m, x);
    }
  }

  lemma OpsMinus(m: Space, m': Space, p: nat, x: nat)
    requires p in m.ops && m'.ops == m.ops - {p}
    ensures |OpsOn(m', x)| == |OpsOn(m, x)| - (if x == m.ops[p].ip then 1 else 0)
  {
    if x == m.ops[p].ip {
      assert OpsOn(m, x) == OpsOn(m', x) + {p};
    } else {
      assert OpsOn(m', x) == OpsOn(m, x);
    }
  }

  lemma NamesPlus(m: Space, m': Space, k: (nat, string), i: nat, x: nat)
    requires k !in m.entries && m'.entries == m.entries[k := i]
    ensures |Names(m', x)| == |Names(m, x)| + (if x == i then 1 else 0)
  {
    if x == i {
      assert Names(m', x) == Names(m, x) + {k};
    } else {
      assert Names(m', x) == Names(m, x);
    }
  }

  lemma NamesMinus(m: Space, m': Space, k: (nat, string), x: nat)
    requires k in m.entries && m'.entries == m.entries - {k}
    ensures |Names(m', x)| == |Names(m, x)| - (if x == m.entries[k] then 1 else 0)
  {
    if x == m.entries[k] {
      assert Names(m, x) == Names(m', x) + {k};
    } else {
      assert Names(m', x) == Names(m, x);
    }
  }

  lemma LinkStartInv(root: nat, m: Space, m': Space, p: nat, i: nat)
    requires Inv(root, m) && LinkStart(m, m', p, i)
    ensures Inv(root, m')
  {
    SameShape(root, m, m', i, m'.nodes[i]);
    forall x | x in m'.nodes ensures CountOk(m', x) {
      assert CountOk(m, x);
      SameSubs(m, m', i, m'.nodes[i], x);
      OpsPlus(m, m', p, Linking(i), x);
      assert Names(m', x) == Names(m, x);
    }
  }

  // The end of sys_link on its error path and of sys_unlink.
  lemma UncountInv(root: nat, m: Space, m': Space, p: nat)
    requires Inv(root, m) && (LinkAbort(m, m', p) || UnlinkDrop(m, m', p))
    ensures Inv(root, m')
  {
    var i := m.ops[p].ip;
    SameShape(root, m, m', i, m'.nodes[i]);
    forall x | x in m'.nodes ensures CountOk(m', x) {
      assert CountOk(m, x);
      SameSubs(m, m', i, m'.nodes[i], x);
      OpsMinus(m, m', p, x);
      assert Names(m', x) == Names(m, x);
    }
  }

  lemma LinkFinishInv(root: nat, m: Space, m': Space, p: nat, d: nat, name: string)
    requires Inv(root, m) && LinkFinish(m, m', p, d, name) && m.nodes[d].nlink > 0
    ensures Inv(root, m')
  {
    UnlinkedExactly(root, m, d);
    assert OpOk(m, p);
    forall x | x in m'.nodes ensures DirOk(root, m', x) {
      assert DirOk(root, m, x);
    }
    forall k | k in m'.entries ensures EntryOk(root, m', k) {
      if k != (d, name) { assert EntryOk(root, m, k); }
    }
    forall q | q in m'.ops ensures OpOk(m', q) {
      assert OpOk(m, q);
    }
    LinkFinishCounts(root, m, m', p, d, name);
  }

  lemma LinkFinishCounts(root: nat, m: Space, m': Space, p: nat, d: nat, name: string)
    requires Inv(root, m) && LinkFinish(m, m', p, d, name)
    ensures Counted(m')
  {
    forall x | x in m'.nodes ensures CountOk(m', x) {
      assert CountOk(m, x);
      OpsMinus(m, m', p, x);
      NamesPlus(m, m', (d, name), m.ops[p].ip, x);
      assert Subs(m', x) == Subs(m, x);
    }
  }

  // A new inode is entered in directory d, whose count may change.
  lemma CreateShape(root: nat, m: Space, m': Space, d: nat, name: string, i: nat, node: Node, count: int)
    requires ShapeOk(root, m) && d in m.nodes && m.nodes[d].dir && m.nodes[d].linked && (d, name) !in m.entries && i !in m.nodes
    requires m'.nodes == m.nodes[d := m.nodes[d].(nlink := count)][i := node] && m'.ops == m.ops
    requires m'.entries == m.entries[(d, name) := i]
    requires node.dir ==> node.linked && node.parent == d && node.name == name
    ensures ShapeOk(root, m')
  {
    forall x | x in m'.nodes ensures DirOk(root, m', x) {
      if x != i { assert DirOk(root, m, x); }
    }
    forall k | k in m'.entries ensures EntryOk(root, m', k) {
      if k != (d, name) { assert EntryOk(root, m, k); }
    }
    forall q | q in m'.ops ensures OpOk(m', q) {
      assert OpOk(m, q);
    }
  }

  lemma CreateCount(m: Space, m': Space, d: nat, name: string, i: nat, x: nat)
    requires d in m.nodes && (d, name) !in m.entries && i !in m.nodes && Names(m, i) == {} && Subs(m, i) == {} && OpsOn(m, i) == {}
    requires i in m'.nodes && d in m'.nodes && m'.entries == m.entries[(d, name) := i] && x in m'.nodes
    requires m'.nodes == m.nodes[d := m.nodes[d].(nlink := m'.nodes[d].nlink)][i := m'.nodes[i]] && m'.ops == m.ops
    requires m'.nodes[i].nlink == 1 && m'.nodes[i].leaving == 0 && (m'.nodes[i].dir ==> m'.nodes[i].linked && m'.nodes[i].parent == d)
    requires m'.nodes[d].nlink == m.nodes[d].nlink + (if m'.nodes[i].dir then 1 else 0)
    requires x != i ==> x in m.nodes && CountOk(m, x)
    ensures CountOk(m', x)
  {
    NamesPlus(m, m', (d, name), i, x);
    SubsAfterCreate(m, m', d, i, x);
    assert OpsOn(m', x) == OpsOn(m, x);
  }

  lemma CreateFileInv(root: nat, m: Space, m': Space, d: nat, name: string, i: nat)
    requires Inv(root, m) && CreateFile(m, m', d, name, i) && m.nodes[d].nlink > 0
    ensures Inv(root, m')
  {
    UnlinkedExactly(root, m, d);
    SameCount(m.nodes, m'.nodes, d, i);
    CreateShape(root, m, m', d, name, i, m'.nodes[i], m.nodes[d].nlink);
    CreateFileCounts(root, m, m', d, name, i);
  }

  lemma CreateFileCounts(root: nat, m: Space, m': Space, d: nat, name: string, i: nat)
    requires Inv(root, m) && CreateFile(m, m', d, name, i)
    ensures Counted(m')
  {
    FreshIsUnnamed(root, m, i);
    SameCount(m.nodes, m'.nodes, d, i);
    forall x | x in m'.nodes ensures CountOk(m', x) {
      if x != i { assert CountOk(m, x); }
      CreateCount(m, m', d, name, i, x);
    }
  }

  lemma SameCount(nodes: map<nat, Node>, nodes': map<nat, Node>, d: nat, i: nat)
    requires d in nodes && i !in nodes && i in nodes' && nodes' == nodes[i := nodes'[i]]
    ensures nodes' == nodes[d := nodes[d].(nlink := nodes[d].nlink)][i := nodes'[i]] && nodes'[d] == nodes[d]
  {
  }

  lemma SubsAfterCreate(m: Space, m': Space, d: nat, i: nat, x: nat)
    requires i !in m.nodes && m'.nodes.Keys == m.nodes.Keys + {i}
    requires forall y :: y in m.nodes ==> m'.nodes[y] == m.nodes[y].(nlink := m'.nodes[y].nlink)
    requires m'.nodes[i].dir ==> m'.nodes[i].linked && m'.nodes[i].parent == d
    ensures |Subs(m', x)| == |Subs(m, x)| + (if m'.nodes[i].dir && x == d then 1 else 0)
  {
    if m'.nodes[i].dir && x == d {
      assert Subs(m', x) == Subs(m, x) + {i};
    } else {
      assert Subs(m', x) == Subs(m, x);
    }
  }

  lemma FreshIsUnnamed(root: nat, m: Space, i: nat)
    requires ShapeOk(root, m) && i !in m.nodes
    ensures Names(m, i) == {} && Subs(m, i) == {} && OpsOn(m, i) == {}
  {
  }

  lemma CreateDirInv(root: nat, m: Space, m': Space, d: nat, name: string, i: nat)
    requires Inv(root, m) && CreateDir(m, m', d, name, i) && m.nodes[d].nlink > 0
    ensures Inv(root, m')
  {
    UnlinkedExactly(root, m, d);
    CreateShape(root, m, m', d, name, i, m'.nodes[i], m.nodes[d].nlink + 1);
    CreateDirCounts(root, m, m', d, name, i);
  }

  lemma CreateDirCounts(root: nat, m: Space, m': Space, d: nat, name: string, i: nat)
    requires Inv(root, m) && CreateDir(m, m', d, name, i)
    ensures Counted(m')
  {
    FreshIsUnnamed(root, m, i);
    forall x | x in m'.nodes ensures CountOk(m', x) {
      if x != i { assert CountOk(m, x); }
      CreateCount(m, m', d, name, i, x);
    }
  }

  lemma UnlinkShape(root: nat, m: Space, m': Space, p: nat, d: nat, name: string)
    requires ShapeOk(root, m) && UnlinkEntry(m, m', p, d, name)
    ensures ShapeOk(root, m')
  {
    var k0, i := (d, name), m.entries[(d, name)];
    assert EntryOk(root, m, k0);
    forall x | x in m'.nodes ensures DirOk(root, m', x) {
      assert DirOk(root, m, x);
    }
    forall k | k in m'.entries ensures EntryOk(root, m', k) {
      assert EntryOk(root, m, k);
    }
    forall q | q in m'.ops ensures OpOk(m', q) {
      if q != p { assert OpOk(m, q); }
    }
  }

  lemma UnlinkCount(m: Space, m': Space, p: nat, d: nat, name: string, x: nat)
    requires UnlinkEntry(m, m', p, d, name) && x in m.nodes && CountOk(m, x)
    requires var i := m.entries[(d, name)]; m.nodes[i].dir ==> m.nodes[i].linked && m.nodes[i].parent == d
    ensures CountOk(m', x)
  {
    NamesMinus(m, m', (d, name), x);
    OpsPlus(m, m', p, Dropping(m.entries[(d, name)]), x);
    SubsAfterUnlink(m, m', d, m.entries[(d, name)], x);
  }

  lemma UnlinkEntryInv(root: nat, m: Space, m': Space, p: nat, d: nat, name: string)
    requires Inv(root, m) && UnlinkEntry(m, m', p, d, name)
    ensures Inv(root, m')
  {
    UnlinkShape(root, m, m', p, d, name);
    var k0, i := (d, name), m.entries[(d, name)];
    assert EntryOk(root, m, k0);
    forall x | x in m'.nodes ensures CountOk(m', x) {
      assert CountOk(m, x);
      UnlinkCount(m, m', p, d, name, x);
    }
  }

  lemma SubsAfterUnlink(m: Space, m': Space, d: nat, i: nat, x: nat)
    requires i in m.nodes && d in m.nodes && m'.nodes.Keys == m.nodes.Keys
    requires forall y :: y in m.nodes && y != i ==> m'.nodes[y] == m.nodes[y].(nlink := m'.nodes[y].nlink)
    requires m'.nodes[i] == m.nodes[i].(nlink := m'.nodes[i].nlink, ref := m'.nodes[i].ref, linked := m'.nodes[i].linked)
    requires m.nodes[i].dir ==> m.nodes[i].linked && m.nodes[i].parent == d && !m'.nodes[i].linked
    requires !m.nodes[i].dir ==> m'.nodes[i].linked == m.nodes[i].linked
    ensures |Subs(m', x)| == |Subs(m, x)| - (if m.nodes[i].dir && x == d then 1 else 0)
  {
    if m.nodes[i].dir && x == d {
      assert Subs(m, x) == Subs(m', x) + {i};
    } else {
      assert Subs(m', x) == Subs(m, x);
    }
  }

  // --- runs -----------------------------------------------------------------------------------

  // A step that adds an entry to directory d.
  ghost predicate Adds(m: Space, m': Space, d: nat) {
    || (exists p, name :: LinkFinish(m, m', p, d, name))
    || (exists name, i :: CreateFile(m, m', d, name, i))
    || (exists name, i :: CreateDir(m, m', d, name, i))
  }

  ghost predicate Keeps(m: Space, m': Space) {
    || (exists i :: Get(m, m', i))
    || (exists i :: PutTest(m, m', i))
    || (exists i :: PutDrop(m, m', i))
    || (exists p, i :: LinkStart(m, m', p, i))
    || (exists p :: LinkAbort(m, m', p))
    || (exists p, d, name :: UnlinkEntry(m, m', p, d, name))
    || (exists p :: UnlinkDrop(m, m', p))
  }

  ghost predicate Next(m: Space, m': Space) {
    Keeps(m, m') || exists d :: Adds(m, m', d)
  }

  // No entry is added to a directory that has been unlinked.
  ghost predicate Careful(m: Space, m': Space) {
    Keeps(m, m') || exists d :: Adds(m, m', d) && m.nodes[d].nlink > 0
  }

  lemma KeepsInv(root: nat, m: Space, m': Space)
    requires Inv(root, m) && Keeps(m, m')
    ensures Inv(root, m')
  {
    if i :| Get(m, m', i) {
      GetInv(root, m, m', i);
    } else if i :| PutTest(m, m', i) {
      if Frees(m, i) { FreeInv(root, m, m', i); } else { PutInv(root, m, m', i); }
    } else if i :| PutDrop(m, m', i) {
      PutInv(root, m, m', i);
    } else if p, i :| LinkStart(m, m', p, i) {
      LinkStartInv(root, m, m', p, i);
    } else if p :| LinkAbort(m, m', p) {
      UncountInv(root, m, m', p);
    } else if p, d, name :| UnlinkEntry(m, m', p, d, name) {
      UnlinkEntryInv(root, m, m', p, d, name);
    } else {
      var p :| UnlinkDrop(m, m', p);
      UncountInv(root, m, m', p);
    }
  }

  lemma AddsInv(root: nat, m: Space, m': Space, d: nat)
    requires Inv(root, m) && Adds(m, m', d) && m.nodes[d].nlink > 0
    ensures Inv(root, m')
  {
    if p, name :| LinkFinish(m, m', p, d, name) {
      LinkFinishInv(root, m, m', p, d, name);
    } else if name, i :| CreateFile(m, m', d, name, i) {
      CreateFileInv(root, m, m', d, name, i);
    } else {
      var name, i :| CreateDir(m, m', d, name, i);
      CreateDirInv(root, m, m', d, name, i);
    }
  }

  ghost predicate Run(root: nat, run: seq<Space>) {
    && |run| > 0 && Start(root, run[0])
    && forall t :: 0 <= t < |run| - 1 ==> Careful(run[t], run[t + 1])
  }

  lemma {:induction false} RunInv(root: nat, run: seq<Space>, t: nat)
    requires Run(root, run) && t < |run|
    ensures Inv(root, run[t])
  {
    if t == 0 {
      StartInv(root, run[0]);
    } else {
      RunInv(root, run, t - 1);
      assert Careful(run[t - 1], run[t - 1 + 1]);
      if Keeps(run[t - 1], run[t]) {
        KeepsInv(root, run[t - 1], run[t]);
      } else {
        var d :| Adds(run[t - 1], run[t], d) && run[t - 1].nodes[d].nlink > 0;
        AddsInv(root, run[t - 1], run[t], d);
      }
    }
  }

  // With nobody in the middle of sys_link or sys_unlink, the link count of an inode is the number
  // of entries that name it, plus for a directory the .. of its linked subdirectories.
  lemma CountAtRest(root: nat, run: seq<Space>, t: nat, i: nat)
    requires Run(root, run) && t < |run| && run[t].ops == map[] && i in run[t].nodes
    ensures run[t].nodes[i].nlink == |Names(run[t], i)| + |Subs(run[t], i)|
  {
    RunInv(root, run, t);
    assert CountOk(run[t], i);
    assert OpsOn(run[t], i) == {};
  }

  // Every name leads to an allocated inode, at all times.
  lemma NoDanglingName(root: nat, run: seq<Space>, t: nat, k: (nat, string))
    requires Run(root, run) && t < |run| && k in run[t].entries
    ensures k.0 in run[t].nodes && run[t].entries[k] in run[t].nodes
  {
    RunInv(root, run, t);
    assert EntryOk(root, run[t], k);
  }

  // iput frees an inode only when no entry names it and nobody else refers to it.
  lemma FreedOnlyUnused(root: nat, run: seq<Space>, t: nat, i: nat)
    requires Run(root, run) && t + 1 < |run| && PutTest(run[t], run[t + 1], i) && i !in run[t + 1].nodes
    ensures run[t].nodes[i].ref == 1 && Names(run[t], i) == {} && OpsOn(run[t], i) == {}
    ensures run[t].nodes[i].dir ==> Empty(run[t], i) && Subs(run[t], i) == {}
  {
    RunInv(root, run, t);
    FreedIsUnnamed(root, run[t], i);
    if run[t].nodes[i].dir {
      NothingLeft(root, run[t], i);
    }
  }

  // sys_unlink never panics on the link count of what it has looked up.
  lemma UnlinkNeverPanics(root: nat, run: seq<Space>, t: nat, k: (nat, string))
    requires Run(root, run) && t < |run| && k in run[t].entries && run[t].entries[k] in run[t].nodes
    ensures !UnlinkPanics(run[t], run[t].entries[k])
  {
    RunInv(root, run, t);
    var i := run[t].entries[k];
    assert CountOk(run[t], i) && k in Names(run[t], i);
  }

  // --- entries in an unlinked directory ------------------------------------------------------------

  // Opening and closing directory d, and nothing else.
  ghost predicate Holds(run: seq<Space>, d: nat) {
    |run| > 0 && forall t :: 0 <= t < |run| - 1 ==> Handles(run[t], run[t + 1], d)
  }

  ghost predicate Handles(m: Space, m': Space, d: nat) {
    Get(m, m', d) || PutTest(m, m', d) || PutDrop(m, m', d)
  }

  // An open directory with link count 0 can be closed for good from any state.
  lemma {:induction false} CloseAll(m: Space, d: nat) returns (run: seq<Space>)
    requires d in m.nodes && m.nodes[d].nlink == 0 && OpsOn(m, d) == {} && m.nodes[d].ref > m.nodes[d].leaving
    ensures Holds(run, d) && run[0] == m && run[|run| - 1] == Freed(m, d)
    decreases m.nodes[d].ref
  {
    var node := m.nodes[d];
    if node.ref == 1 {
      assert PutTest(m, Freed(m, d), d);
      run := [m, Freed(m, d)];
    } else {
      var m1 := if node.leaving > 0 then m else m.(nodes := m.nodes[d := node.(leaving := 1)]);
      var m2 := m.(nodes := m.nodes[d := node.(ref := node.ref - 1, leaving := m1.nodes[d].leaving - 1)]);
      assert m1 == m || PutTest(m, m1, d);
      assert PutDrop(m1, m2, d);
      assert OpsOn(m2, d) == OpsOn(m, d) && m2.nodes - {d} == m.nodes - {d};
      var rest := CloseAll(m2, d);
      run := (if m1 == m then [m] else [m, m1]) + rest;
    }
  }

  // Freeing d takes away the one name it held.
  lemma NameGone(m: Space, d: nat, name: string)
    requires d in m.nodes && !m.nodes[d].linked && (d, name) in m.entries && m.entries[(d, name)] in m.nodes
    requires forall k :: k in m.entries && k.0 == d ==> k == (d, name)
    requires m.entries[(d, name)] != d && CountOk(m, m.entries[(d, name)])
    ensures Miscounted(Freed(m, d), m.entries[(d, name)])
  {
    var m', i := Freed(m, d), m.entries[(d, name)];
    OneNameLess(m, m', d, name, i);
    FreedSubs(m, m', d, i);
    assert OpsOn(m', i) == OpsOn(m, i);
  }

  lemma OneNameLess(m: Space, m': Space, d: nat, name: string, i: nat)
    requires m'.entries == Without(m.entries, d) && (d, name) in m.entries && m.entries[(d, name)] == i
    requires forall k :: k in m.entries && k.0 == d ==> k == (d, name)
    ensures |Names(m, i)| == |Names(m', i)| + 1
  {
    assert Names(m, i) == Names(m', i) + {(d, name)};
  }

  lemma FreedSubs(m: Space, m': Space, d: nat, i: nat)
    requires d in m.nodes && !m.nodes[d].linked && m'.nodes == m.nodes - {d}
    ensures Subs(m', i) == Subs(m, i)
  {
  }

  // One link too many is counted.
  ghost predicate Miscounted(m: Space, i: nat) {
    i in m.nodes && m.nodes[i].nlink == |Names(m, i)| + |Subs(m, i)| + |OpsOn(m, i)| + 1
  }

  // A step that enters a file, new or old, in directory d.
  ghost predicate AddsFile(m: Space, m': Space, d: nat, name: string, i: nat) {
    || CreateFile(m, m', d, name, i)
    || exists p :: LinkFinish(m, m', p, d, name) && m.ops[p].ip == i
  }

  lemma AddsFileCounts(root: nat, m: Space, m': Space, d: nat, name: string, i: nat)
    requires Inv(root, m) && AddsFile(m, m', d, name, i)
    ensures Counted(m') && m'.entries == m.entries[(d, name) := i] && d in m.nodes && d in m'.nodes
    ensures m'.nodes[d] == m.nodes[d] && OpsOn(m', d) <= OpsOn(m, d) && i in m'.nodes && i != d
  {
    if p :| LinkFinish(m, m', p, d, name) && m.ops[p].ip == i {
      LinkFinishCounts(root, m, m', p, d, name);
      assert OpOk(m, p);
    } else {
      CreateFileCounts(root, m, m', d, name, i);
    }
  }

  // From every state: a file entered in an unlinked directory is lost.  Closing the directory frees
  // it, and the file keeps one link more than anything accounts for.
  lemma LostFile(root: nat, m: Space, m': Space, d: nat, name: string, i: nat) returns (run: seq<Space>)
    requires Inv(root, m) && AddsFile(m, m', d, name, i) && d in m.nodes && m.nodes[d].nlink == 0
    ensures Holds(run, d) && run[0] == m' && run[|run| - 1] == Freed(m', d) && Miscounted(run[|run| - 1], i)
  {
    AddsFileCounts(root, m, m', d, name, i);
    UnlinkedExactly(root, m, d);
    FreedIsUnnamed(root, m, d);
    assert CountOk(m', i);
    NameGone(m', d, name);
    run := CloseAll(m', d);
  }

  lemma {:induction false} HoldsInv(root: nat, run: seq<Space>, d: nat, t: nat)
    requires Holds(run, d) && Inv(root, run[0]) && t < |run|
    ensures Inv(root, run[t])
  {
    if t > 0 {
      HoldsInv(root, run, d, t - 1);
      assert Handles(run[t - 1], run[t - 1 + 1], d);
      KeepsInv(root, run[t - 1], run[t]);
    }
  }

  // The link counts survive every opening and closing of d after a file is entered in it, if and only
  // if d has not been unlinked.
  lemma LostExactly(root: nat, m: Space, m': Space, d: nat, name: string, i: nat)
    requires Inv(root, m) && AddsFile(m, m', d, name, i) && d in m.nodes
    ensures (forall run: seq<Space> :: Holds(run, d) && run[0] == m' ==> Counted(run[|run| - 1])) <==> m.nodes[d].nlink > 0
  {
    assert CountOk(m, d);
    if m.nodes[d].nlink > 0 {
      assert Adds(m, m', d);
      AddsInv(root, m, m', d);
      forall run: seq<Space> | Holds(run, d) && run[0] == m' ensures Counted(run[|run| - 1]) {
        HoldsInv(root, run, d, |run| - 1);
      }
    } else {
      var run := LostFile(root, m, m', d, name, i);
      assert !CountOk(run[|run| - 1], i);
    }
  }

  // A subdirectory made in an unlinked directory d is different: every count stays exact, but .. of the
  // subdirectory counts for d, so d, which no entry names, is never freed by closing it.
  lemma OrphanedDirectory(root: nat, m: Space, m': Space, d: nat, name: string, i: nat, run: seq<Space>)
    requires Inv(root, m) && CreateDir(m, m', d, name, i) && m.nodes[d].nlink == 0
    requires Holds(run, d) && run[0] == m'
    ensures Counted(m')
    ensures var last := run[|run| - 1];
            && d in last.nodes && last.nodes[d].nlink == 1 && Names(last, d) == {}
            && i in last.nodes && Subs(last, d) == {i}
  {
    CreateDirCounts(root, m, m', d, name, i);
    FreedIsUnnamed(root, m, d);
    assert Names(m', d) == {};
    assert Subs(m', d) == Subs(m, d) + {i};
    StaysOpen(run, d, |run| - 1);
    OnlyRefs(m', run[|run| - 1], d);
  }

  predicate SameButRefs(a: Node, b: Node) {
    b == a.(ref := b.ref, leaving := b.leaving)
  }

  lemma OnlyRefs(m: Space, m': Space, d: nat)
    requires m'.entries == m.entries && m'.nodes.Keys == m.nodes.Keys
    requires forall x :: x in m.nodes ==> SameButRefs(m.nodes[x], m'.nodes[x])
    ensures Names(m', d) == Names(m, d) && Subs(m', d) == Subs(m, d)
  {
  }

  lemma {:induction false} StaysOpen(run: seq<Space>, d: nat, t: nat)
    requires Holds(run, d) && d in run[0].nodes && run[0].nodes[d].nlink > 0 && t < |run|
    ensures run[t].entries == run[0].entries && run[t].nodes.Keys == run[0].nodes.Keys
    ensures forall x :: x in run[0].nodes ==> SameButRefs(run[0].nodes[x], run[t].nodes[x])
  {
    if t > 0 {
      StaysOpen(run, d, t - 1);
      assert Handles(run[t - 1], run[t - 1 + 1], d);
      assert !Frees(run[t - 1], d);
    }
  }

  // --- .. ---------------------------------------------------------------------------------------

  // The parent of a linked directory is allocated, a directory, and linked itself.
  lemma LinkedParent(root: nat, run: seq<Space>, t: nat, d: nat)
    requires Run(root, run) && t < |run| && d in run[t].nodes && run[t].nodes[d].dir && run[t].nodes[d].linked
    ensures var p := run[t].nodes[d].parent; p in run[t].nodes && run[t].nodes[p].dir && run[t].nodes[p].linked
  {
    RunInv(root, run, t);
    assert DirOk(root, run[t], d);
    if d != root {
      assert EntryOk(root, run[t], (run[t].nodes[d].parent, run[t].nodes[d].name));
    }
  }

  // Every .. names an allocated inode.
  ghost predicate DotDotOk(nodes: map<nat, Node>) {
    forall d :: d in nodes && nodes[d].dir ==> nodes[d].parent in nodes
  }

  // The step frees an inode that .. of another directory names; that directory has been unlinked.
  ghost predicate Orphans(m: Space, m': Space) {
    exists i, d :: PutTest(m, m', i) && Frees(m, i) && d in m.nodes && d != i && m.nodes[d].dir && m.nodes[d].parent == i
  }

  lemma DotDotKept(nodes: map<nat, Node>, i: nat, node: Node)
    requires DotDotOk(nodes) && (node.dir ==> node.parent in nodes)
    ensures DotDotOk(nodes[i := node])
  {
  }

  // No step but a free takes an inode away or moves a directory.
  lemma DotDotStays(m: Space, m': Space)
    requires Careful(m, m') && DotDotOk(m.nodes) && !(exists i :: PutTest(m, m', i) && Frees(m, i))
    ensures DotDotOk(m'.nodes)
  {
    if i :| Get(m, m', i) || PutTest(m, m', i) || PutDrop(m, m', i) {
      DotDotKept(m.nodes, i, m'.nodes[i]);
    } else if p, i :| LinkStart(m, m', p, i) {
      DotDotKept(m.nodes, i, m'.nodes[i]);
    } else if p :| LinkAbort(m, m', p) || UnlinkDrop(m, m', p) {
      DotDotKept(m.nodes, m.ops[p].ip, m'.nodes[m.ops[p].ip]);
    } else if p, d, name :| UnlinkEntry(m, m', p, d, name) {
      var i := m.entries[(d, name)];
      DotDotKept(m.nodes, i, m.nodes[i].(ref := m.nodes[i].ref + 1, linked := m'.nodes[i].linked));
      DotDotKept(m.nodes[i := m.nodes[i].(ref := m.nodes[i].ref + 1, linked := m'.nodes[i].linked)], d, m'.nodes[d]);
    } else {
      var d :| Adds(m, m', d);
      DotDotAdds(m, m', d);
    }
  }

  lemma DotDotAdds(m: Space, m': Space, d: nat)
    requires Adds(m, m', d) && DotDotOk(m.nodes)
    ensures DotDotOk(m'.nodes)
  {
    if name, i :| CreateFile(m, m', d, name, i) {
      DotDotKept(m.nodes, i, m'.nodes[i]);
    } else if name, i :| CreateDir(m, m', d, name, i) {
      DotDotKept(m.nodes, d, m'.nodes[d]);
      DotDotKept(m.nodes[d := m'.nodes[d]], i, m'.nodes[i]);
    }
  }

  lemma DotDotFree(m: Space, m': Space, i: nat)
    requires PutTest(m, m', i) && Frees(m, i) && DotDotOk(m.nodes)
    ensures DotDotOk(m'.nodes) <==> !exists d :: d in m.nodes && d != i && m.nodes[d].dir && m.nodes[d].parent == i
  {
    if d :| d in m.nodes && d != i && m.nodes[d].dir && m.nodes[d].parent == i {
      assert d in m'.nodes;
    }
  }

  lemma DotDotStep(m: Space, m': Space)
    requires Careful(m, m') && DotDotOk(m.nodes)
    ensures DotDotOk(m'.nodes) <==> !Orphans(m, m')
  {
    if i :| PutTest(m, m', i) && Frees(m, i) {
      DotDotFree(m, m', i);
      if j, d :| PutTest(m, m', j) && Frees(m, j) && d in m.nodes && d != j && m.nodes[d].dir && m.nodes[d].parent == j {
        DotDotFree(m, m', j);
      }
    } else {
      DotDotStays(m, m');
    }
  }

  // In a run every .. names an allocated inode, if and only if no step frees the parent of another
  // allocated directory.
  lemma DotDotExactly(root: nat, run: seq<Space>, t: nat)
    requires Run(root, run) && t < |run|
    ensures (forall k :: 0 <= k <= t ==> DotDotOk(run[k].nodes)) <==> (forall k :: 0 <= k < t ==> !Orphans(run[k], run[k + 1]))
  {
    forall k | 0 <= k < t
      ensures DotDotOk(run[k].nodes) ==> (DotDotOk(run[k + 1].nodes) <==> !Orphans(run[k], run[k + 1]))
    {
      assert Careful(run[k], run[k + 1]);
      if DotDotOk(run[k].nodes) {
        DotDotStep(run[k], run[k + 1]);
      }
    }
    DotDotChain(run, t);
  }

  lemma {:induction false} DotDotChain(run: seq<Space>, t: nat)
    requires t < |run| && DotDotOk(run[0].nodes)
    requires forall k :: 0 <= k < t ==> DotDotOk(run[k].nodes) ==> (DotDotOk(run[k + 1].nodes) <==> !Orphans(run[k], run[k + 1]))
    ensures (forall k :: 0 <= k <= t ==> DotDotOk(run[k].nodes)) <==> (forall k :: 0 <= k < t ==> !Orphans(run[k], run[k + 1]))
  {
    if t > 0 {
      var j := t - 1;
      DotDotChain(run, j);
      assert DotDotOk(run[j].nodes) ==> (DotDotOk(run[j + 1].nodes) <==> !Orphans(run[j], run[j + 1]));
    }
  }

  // --- inodes that nobody frees -----------------------------------------------------------------

  // Without links, but held by somebody who has still to make the test of iput.
  predicate Held(node: Node) {
    node.nlink == 0 ==> node.ref > node.leaving
  }

  ghost predicate NoLeak(nodes: map<nat, Node>) {
    forall i :: i in nodes ==> Held(nodes[i])
  }

  // The last holder of an inode without links makes its test while another iput has made its own
  // and not yet decremented.
  ghost predicate Overtakes(m: Space, m': Space) {
    exists i :: PutTest(m, m', i) && m.nodes[i].nlink == 0 && m.nodes[i].ref == m.nodes[i].leaving + 1 > 1
  }

  lemma LeakStep(root: nat, m: Space, m': Space)
    requires Inv(root, m) && Careful(m, m') && NoLeak(m.nodes)
    ensures NoLeak(m'.nodes) <==> !Overtakes(m, m')
  {
    if i :| PutTest(m, m', i) {
      TestLeak(m, m', i);
      if j :| PutTest(m, m', j) && m.nodes[j].nlink == 0 && m.nodes[j].ref == m.nodes[j].leaving + 1 > 1 {
        TestLeak(m, m', j);
      }
    } else {
      HeldStays(root, m, m');
    }
  }

  lemma TestLeak(m: Space, m': Space, i: nat)
    requires PutTest(m, m', i) && NoLeak(m.nodes)
    ensures NoLeak(m'.nodes) <==> !(m.nodes[i].nlink == 0 && m.nodes[i].ref == m.nodes[i].leaving + 1 > 1)
  {
    if m.nodes[i].nlink == 0 && m.nodes[i].ref == m.nodes[i].leaving + 1 > 1 {
      assert !Held(m'.nodes[i]);
    }
  }

  lemma HeldUpdate(nodes: map<nat, Node>, i: nat, node: Node)
    requires NoLeak(nodes) && Held(node)
    ensures NoLeak(nodes[i := node])
  {
  }

  lemma HeldStays(root: nat, m: Space, m': Space)
    requires Inv(root, m) && Careful(m, m') && NoLeak(m.nodes) && !(exists i :: PutTest(m, m', i))
    ensures NoLeak(m'.nodes)
  {
    if i :| Get(m, m', i) || PutDrop(m, m', i) {
      HeldUpdate(m.nodes, i, m'.nodes[i]);
    } else if p, i :| LinkStart(m, m', p, i) {
      assert CountOk(m, i);
      HeldUpdate(m.nodes, i, m'.nodes[i]);
    } else if p :| LinkAbort(m, m', p) || UnlinkDrop(m, m', p) {
      UncountHeld(root, m, m', p);
    } else if p, d, name :| UnlinkEntry(m, m', p, d, name) {
      UnlinkHeld(m, m', p, d, name);
    } else {
      var d :| Adds(m, m', d);
      AddsHeld(root, m, m', d);
    }
  }

  lemma UnlinkHeld(m: Space, m': Space, p: nat, d: nat, name: string)
    requires NoLeak(m.nodes) && UnlinkEntry(m, m', p, d, name)
    ensures NoLeak(m'.nodes)
  {
    var i := m.entries[(d, name)];
    var node := m.nodes[i].(ref := m.nodes[i].ref + 1, linked := m'.nodes[i].linked);
    assert Held(m.nodes[i]) && Held(m.nodes[d]);
    if m.nodes[i].dir {
      HeldUpdate(m.nodes, i, node);
      HeldUpdate(m.nodes[i := node], d, m'.nodes[d]);
    } else {
      HeldUpdate(m.nodes, i, m'.nodes[i]);
    }
  }

  lemma AddsHeld(root: nat, m: Space, m': Space, d: nat)
    requires Inv(root, m) && NoLeak(m.nodes) && Adds(m, m', d)
    ensures NoLeak(m'.nodes)
  {
    if name, i :| CreateFile(m, m', d, name, i) {
      HeldUpdate(m.nodes, i, m'.nodes[i]);
    } else if name, i :| CreateDir(m, m', d, name, i) {
      assert CountOk(m, d);
      HeldUpdate(m.nodes, d, m'.nodes[d]);
      HeldUpdate(m.nodes[d := m'.nodes[d]], i, m'.nodes[i]);
    }
  }

  lemma UncountHeld(root: nat, m: Space, m': Space, p: nat)
    requires Inv(root, m) && NoLeak(m.nodes) && (LinkAbort(m, m', p) || UnlinkDrop(m, m', p))
    ensures NoLeak(m'.nodes)
  {
    var i := m.ops[p].ip;
    assert CountOk(m, i) && p in OpsOn(m, i);
  }

  // In a run every inode without links is still held by somebody who can free it, if and only if no
  // iput overtakes another like that.
  lemma LeakExactly(root: nat, run: seq<Space>, t: nat)
    requires Run(root, run) && t < |run|
    ensures (forall k :: 0 <= k <= t ==> NoLeak(run[k].nodes)) <==> (forall k :: 0 <= k < t ==> !Overtakes(run[k], run[k + 1]))
  {
    forall k | 0 <= k < t ensures NoLeak(run[k].nodes) ==> (NoLeak(run[k + 1].nodes) <==> !Overtakes(run[k], run[k + 1])) {
      RunInv(root, run, k);
      assert Careful(run[k], run[k + 1]);
      if NoLeak(run[k].nodes) {
        LeakStep(root, run[k], run[k + 1]);
      }
    }
    LeakChain(run, t);
  }

  lemma {:induction false} LeakChain(run: seq<Space>, t: nat)
    requires t < |run| && NoLeak(run[0].nodes)
    requires forall k :: 0 <= k < t ==> NoLeak(run[k].nodes) ==> (NoLeak(run[k + 1].nodes) <==> !Overtakes(run[k], run[k + 1]))
    ensures (forall k :: 0 <= k <= t ==> NoLeak(run[k].nodes)) <==> (forall k :: 0 <= k < t ==> !Overtakes(run[k], run[k + 1]))
  {
    if t > 0 {
      var j := t - 1;
      LeakChain(run, j);
      assert NoLeak(run[j].nodes) ==> (NoLeak(run[j + 1].nodes) <==> !Overtakes(run[j], run[j + 1]));
    }
  }

  // --- runs in which these things happen -------------------------------------------------------------

  ghost predicate Trace(run: seq<Space>) {
    |run| > 0 && Start(1, run[0]) && forall t :: 0 <= t < |run| - 1 ==> Next(run[t], run[t + 1])
  }

  lemma Continue(run: seq<Space>, more: seq<Space>, d: nat)
    requires Trace(run) && Holds(more, d) && more[0] == run[|run| - 1]
    ensures Trace(run + more[1..])
  {
    var r := run + more[1..];
    forall t | 0 <= t < |r| - 1 ensures Next(r[t], r[t + 1]) {
      if t < |run| - 1 {
        assert Next(run[t], run[t + 1]);
      } else {
        var u := t - (|run| - 1);
        assert r[t] == more[u] && r[t + 1] == more[u + 1];
        assert Handles(more[u], more[u + 1], d);
      }
    }
  }

  // d is made in the root directory and unlinked while it is open.
  lemma UnlinkedWhileOpen() returns (run: seq<Space>)
    ensures Run(1, run) && Trace(run)
    ensures var root, d := Node(true, 1, 1, 0, 1, true, ""), Node(true, 0, 2, 0, 1, false, "d");
            run[|run| - 1] == Space(map[1 := root, 2 := d], map[], map[])
  {
    var root, d := Node(true, 1, 1, 0, 1, true, ""), Node(true, 1, 1, 0, 1, true, "d");
    var m0 := Space(map[1 := root], map[], map[]);
    var m1 := Space(map[1 := root.(nlink := 2), 2 := d], map[(1, "d") := 2], map[]);
    var m2 := Space(map[1 := root, 2 := d.(ref := 2, linked := false)], map[], map[0 := Dropping(2)]);
    var m3 := Space(map[1 := root, 2 := d.(nlink := 0, ref := 2, linked := false)], map[], map[]);
    assert CreateDir(m0, m1, 1, "d", 2) by {
      assert m1.nodes == m0.nodes[1 := m0.nodes[1].(nlink := 2)][2 := m1.nodes[2]];
    }
    assert Adds(m0, m1, 1);
    assert UnlinkEntry(m1, m2, 0, 1, "d") by {
      assert m2.entries == m1.entries - {(1, "d")};
      assert m2.nodes == m1.nodes[2 := m2.nodes[2]][1 := m1.nodes[1].(nlink := 1)];
    }
    assert UnlinkDrop(m2, m3, 0) by {
      assert m3.ops == m2.ops - {0};
      assert m3.nodes == m2.nodes[2 := m3.nodes[2]];
    }
    run := [m0, m1, m2, m3];
  }

  // f is made in such a directory, and when that is closed f keeps a link count of 1 that no name
  // accounts for.
  lemma LostInode() returns (run: seq<Space>)
    ensures Trace(run)
    ensures var m := run[|run| - 1]; m.ops == map[] && 3 in m.nodes && m.nodes[3].nlink == 1 && Names(m, 3) == {}
  {
    var r := UnlinkedWhileOpen();
    var m := r[|r| - 1];
    RunInv(1, r, |r| - 1);
    var f := Node(false, 1, 1, 0, 0, false, "");
    var m' := Space(m.nodes[3 := f], map[(2, "f") := 3], map[]);
    assert CreateFile(m, m', 2, "f", 3);
    assert Adds(m, m', 2);
    var more := LostFile(1, m, m', 2, "f", 3);
    Continue(r + [m'], more, 2);
    run := r + [m'] + more[1..];
    assert run[|run| - 1] == more[|more| - 1];
  }

  // Both holders of such a directory make their tests before either decrements: it stays allocated,
  // with no name and no reference.
  lemma LeakedInode() returns (run: seq<Space>)
    ensures Run(1, run)
    ensures var m := run[|run| - 1];
            m.ops == map[] && 2 in m.nodes && m.nodes[2].nlink == 0 && m.nodes[2].ref == 0 && !Findable(m, 2)
  {
    var r := UnlinkedWhileOpen();
    var m := r[|r| - 1];
    var d := m.nodes[2];
    var m1, m2 := m.(nodes := m.nodes[2 := d.(leaving := 1)]), m.(nodes := m.nodes[2 := d.(leaving := 2)]);
    var m3, m4 := m.(nodes := m.nodes[2 := d.(ref := 1, leaving := 1)]), m.(nodes := m.nodes[2 := d.(ref := 0)]);
    assert OpsOn(m, 2) == {} && OpsOn(m1, 2) == {};
    assert PutTest(m, m1, 2) && PutTest(m1, m2, 2) && PutDrop(m2, m3, 2) && PutDrop(m3, m4, 2);
    assert Names(m4, 2) == {};
    run := r + [m1, m2, m3, m4];
    forall t | 0 <= t < |run| - 1 ensures Careful(run[t], run[t + 1]) {
      assert t < |r| - 1 ==> Careful(r[t], r[t + 1]);
    }
  }

  // a and a/b are made, and both are unlinked while b is open: a is freed, and .. of b still names it.
  lemma DanglingDotDot() returns (run: seq<Space>)
    ensures Trace(run)
    ensures var m := run[|run| - 1]; 3 in m.nodes && m.nodes[3].ref > 0 && m.nodes[3].dir && m.nodes[3].parent == 2 && 2 !in m.nodes
  {
    var r := BothUnlinked();
    var m := r[|r| - 1];
    assert OpsOn(m, 2) == {};
    var more := CloseAll(m, 2);
    Continue(r, more, 2);
    run := r + more[1..];
    assert run[|run| - 1] == more[|more| - 1];
  }

  lemma BothUnlinked() returns (run: seq<Space>)
    ensures Trace(run)
    ensures var root, a, b := Node(true, 1, 1, 0, 1, true, ""), Node(true, 0, 2, 0, 1, false, "a"), Node(true, 0, 2, 0, 2, false, "b");
            run[|run| - 1] == Space(map[1 := root, 2 := a, 3 := b], map[], map[])
  {
    var root := Node(true, 1, 1, 0, 1, true, "");
    var a, b := Node(true, 1, 1, 0, 1, true, "a"), Node(true, 1, 1, 0, 2, true, "b");
    var m0 := Space(map[1 := root], map[], map[]);
    var m1 := Space(map[1 := root.(nlink := 2), 2 := a], map[(1, "a") := 2], map[]);
    var m2 := Space(map[1 := root.(nlink := 2), 2 := a.(nlink := 2), 3 := b], map[(1, "a") := 2, (2, "b") := 3], map[]);
    var b' := b.(ref := 2, linked := false);
    var m3 := Space(map[1 := root.(nlink := 2), 2 := a, 3 := b'], map[(1, "a") := 2], map[0 := Dropping(3)]);
    MakeTwo(m0, m1, m2, m3);
    var m4 := Space(map[1 := root.(nlink := 2), 2 := a, 3 := b'.(nlink := 0)], map[(1, "a") := 2], map[]);
    var a' := a.(ref := 2, linked := false);
    var m5 := Space(map[1 := root, 2 := a', 3 := b'.(nlink := 0)], map[], map[0 := Dropping(2)]);
    var m6 := Space(map[1 := root, 2 := a'.(nlink := 0), 3 := b'.(nlink := 0)], map[], map[]);
    UnlinkSecond(m3, m4, m5, m6);
    run := [m0, m1, m2, m3, m4, m5, m6];
  }

  lemma MakeTwo(m0: Space, m1: Space, m2: Space, m3: Space)
    requires var root, a, b := Node(true, 1, 1, 0, 1, true, ""), Node(true, 1, 1, 0, 1, true, "a"), Node(true, 1, 1, 0, 2, true, "b");
             && m0 == Space(map[1 := root], map[], map[])
             && m1 == Space(map[1 := root.(nlink := 2), 2 := a], map[(1, "a") := 2], map[])
             && m2 == Space(map[1 := root.(nlink := 2), 2 := a.(nlink := 2), 3 := b], map[(1, "a") := 2, (2, "b") := 3], map[])
             && m3 == Space(map[1 := root.(nlink := 2), 2 := a, 3 := b.(ref := 2, linked := false)], map[(1, "a") := 2], map[0 := Dropping(3)])
    ensures Next(m0, m1) && Next(m1, m2) && Next(m2, m3)
  {
    assert CreateDir(m0, m1, 1, "a", 2) by {
      assert m1.nodes == m0.nodes[1 := m0.nodes[1].(nlink := 2)][2 := m1.nodes[2]];
    }
    assert Adds(m0, m1, 1);
    assert CreateDir(m1, m2, 2, "b", 3) by {
      assert m2.nodes == m1.nodes[2 := m1.nodes[2].(nlink := 2)][3 := m2.nodes[3]];
    }
    assert Adds(m1, m2, 2);
    assert UnlinkEntry(m2, m3, 0, 2, "b") by {
      assert m3.entries == m2.entries - {(2, "b")};
      assert m3.nodes == m2.nodes[3 := m3.nodes[3]][2 := m2.nodes[2].(nlink := 1)];
    }
  }

  lemma UnlinkSecond(m3: Space, m4: Space, m5: Space, m6: Space)
    requires var root, a, b := Node(true, 1, 1, 0, 1, true, ""), Node(true, 1, 1, 0, 1, true, "a"), Node(true, 1, 2, 0, 2, false, "b");
             var a' := a.(ref := 2, linked := false);
             && m3 == Space(map[1 := root.(nlink := 2), 2 := a, 3 := b], map[(1, "a") := 2], map[0 := Dropping(3)])
             && m4 == Space(map[1 := root.(nlink := 2), 2 := a, 3 := b.(nlink := 0)], map[(1, "a") := 2], map[])
             && m5 == Space(map[1 := root, 2 := a', 3 := b.(nlink := 0)], map[], map[0 := Dropping(2)])
             && m6 == Space(map[1 := root, 2 := a'.(nlink := 0), 3 := b.(nlink := 0)], map[], map[])
    ensures Next(m3, m4) && Next(m4, m5) && Next(m5, m6)
  {
    assert UnlinkDrop(m3, m4, 0) by {
      assert m4.ops == m3.ops - {0};
      assert m4.nodes == m3.nodes[3 := m4.nodes[3]];
    }
    assert UnlinkEntry(m4, m5, 0, 1, "a") by {
      assert m5.entries == m4.entries - {(1, "a")};
      assert m5.nodes == m4.nodes[2 := m5.nodes[2]][1 := m4.nodes[1].(nlink := 1)];
    }
    assert UnlinkDrop(m5, m6, 0) by {
      assert m6.ops == m5.ops - {0};
      assert m6.nodes == m5.nodes[2 := m6.nodes[2]];
    }
  }
}
