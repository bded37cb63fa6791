/** The search tree of readdir.c. Names hold no NUL byte. Red-black rebalancing is any change of shape that keeps the
    in-order names. */
module NameTree {
  /** strncmp of two C strings; only the sign matters. */
  function Strncmp(a: string, b: string, n: nat): int {
    if n == 0 || (a == "" && b == "") then 0
    else if a == "" then -1
    else if b == "" then 1
    else if a[0] != b[0] then (if a[0] < b[0] then -1 else 1)
    else Strncmp(a[1..], b[1..], n - 1)
  }

  datatype Order = Less | Equal | Greater

  /** The test made at each node: compare as many characters as the wanted name has, then look at the lengths. */
  function Compare(name: string, at: string): Order {
    var cmp := Strncmp(name, at, |name|);
    if cmp > 0 then Greater
    else if cmp < 0 || |name| < |at| then Less
    else Equal
  }

  function Flip(o: Order): Order {
    match o
    case Less => Greater
    case Equal => Equal
    case Greater => Less
  }

  lemma {:induction false} CompareStep(a: string, b: string)
    requires a != "" && b != ""
    ensures Compare(a, b) == if a[0] < b[0] then Less else if a[0] > b[0] then Greater else Compare(a[1..], b[1..])
  {
  }

  /** The length-limited comparison is a strict total order: only equal names compare as equal, ... */
  lemma {:induction false} CompareEqual(a: string, b: string)
    ensures Compare(a, b) == Equal <==> a == b
  {
    if a != "" && b != "" {
      CompareStep(a, b);
      CompareEqual(a[1..], b[1..]);
      assert a == [a[0]] + a[1..] && b == [b[0]] + b[1..];
    }
  }

  /** ... it is antisymmetric although the limit is the length of the first name, ... */
  lemma {:induction false} CompareFlips(a: string, b: string)
    ensures Compare(b, a) == Flip(Compare(a, b))
  {
    if a != "" && b != "" {
      CompareStep(a, b);
      CompareStep(b, a);
      CompareFlips(a[1..], b[1..]);
    }
  }

  /** ... and transitive. */
  lemma {:induction false} CompareTransitive(a: string, b: string, c: string)
    requires Compare(a, b) == Less && Compare(b, c) == Less
    ensures Compare(a, c) == Less
  {
    if a != "" && b != "" && c != "" {
      CompareStep(a, b);
      CompareStep(b, c);
      CompareStep(a, c);
      if a[0] == b[0] == c[0] {
        CompareTransitive(a[1..], b[1..], c[1..]);
      }
    }
  }

  // ---------- the tree ----------

  datatype Tree = Leaf | Node(left: Tree, name: string, right: Tree)

  /** The names in order. */
  function Keys(t: Tree): seq<string> {
    if t.Leaf? then [] else Keys(t.left) + [t.name] + Keys(t.right)
  }

  ghost function Elems(s: seq<string>): set<string> {
    set n | n in s
  }

  ghost predicate Sorted(s: seq<string>) {
    forall i, j | 0 <= i < j < |s| :: Compare(s[i], s[j]) == Less
  }

  /** All of s is before the name, or all of it behind. */
  ghost predicate Before(s: seq<string>, name: string) {
    forall i | 0 <= i < |s| :: Compare(name, s[i]) == Greater
  }

  ghost predicate Behind(s: seq<string>, name: string) {
    forall i | 0 <= i < |s| :: Compare(name, s[i]) == Less
  }

  lemma NotAround(s: seq<string>, name: string)
    ensures Before(s, name) || Behind(s, name) ==> name !in s
  {
    CompareEqual(name, name);
  }

  /** What going left or right at a node leaves aside. */
  lemma Turn(l: seq<string>, at: string, r: seq<string>, name: string)
    requires Sorted(l + [at] + r)
    ensures Sorted(l) && Sorted(r)
    ensures Compare(name, at) == Greater ==> Before(l + [at], name)
    ensures Compare(name, at) == Less ==> Behind([at] + r, name)
  {
    var s := l + [at] + r;
    assert forall i | 0 <= i < |l| :: s[i] == l[i];
    assert forall i | 0 <= i < |r| :: s[|l| + 1 + i] == r[i];
    assert s[|l|] == at;
    if Compare(name, at) == Greater {
      forall i | 0 <= i < |l| ensures Compare(name, l[i]) == Greater {
        CompareFlips(name, at);
        CompareTransitive(l[i], at, name);
        CompareFlips(l[i], name);
      }
    }
    if Compare(name, at) == Less {
      forall i | 0 <= i < |r| ensures Compare(name, r[i]) == Less {
        CompareTransitive(name, at, r[i]);
      }
    }
  }

  /** ovl_cache_entry_find */
  method Find(root: Tree, name: string) returns (found: bool)
    requires Sorted(Keys(root))
    ensures found <==> name in Keys(root)
  {
    var node := root;
    while node.Node?
      invariant Sorted(Keys(node))
      invariant name in Keys(root) <==> name in Keys(node)
      decreases node
    {
      var cmp := Strncmp(name, node.name, |name|);
      ghost var l, r := Keys(node.left), Keys(node.right);
      Turn(l, node.name, r, name);
      if cmp > 0 {
        NotAround(l + [node.name], name);
        node := node.right;
      } else if cmp < 0 || |name| < |node.name| {
        NotAround([node.name] + r, name);
        node := node.left;
      } else {
        CompareEqual(name, node.name);
        return true;
      }
    }
    found := false;
  }

  /** A link is where a search ended, as the turns taken from the root, true for right. */
  ghost predicate LinkOk(t: Tree, link: seq<bool>) {
    if link == [] then t.Leaf? else t.Node? && LinkOk(if link[0] then t.right else t.left, link[1..])
  }

  /** rb_link_node */
  function LinkNode(t: Tree, link: seq<bool>, name: string): Tree
    requires LinkOk(t, link)
  {
    if link == [] then Node(Leaf, name, Leaf)
    else if link[0] then t.(right := LinkNode(t.right, link[1..], name))
    else t.(left := LinkNode(t.left, link[1..], name))
  }

  /** The turns a search for the name takes. */
  function Turns(t: Tree, name: string): seq<bool> {
    if t.Leaf? || Compare(name, t.name) == Equal then []
    else if Compare(name, t.name) == Greater then [true] + Turns(t.right, name)
    else [false] + Turns(t.left, name)
  }

  /** A search that fails ends between the names before and those behind. */
  lemma {:induction false} LinkedKeys(t: Tree, name: string) returns (pre: seq<string>, post: seq<string>)
    requires Sorted(Keys(t)) && name !in Keys(t)
    ensures LinkOk(t, Turns(t, name))
    ensures Keys(t) == pre + post && Keys(LinkNode(t, Turns(t, name), name)) == pre + [name] + post
    ensures Before(pre, name) && Behind(post, name)
    decreases t
  {
    pre, post := [], [];
    if t.Node? {
      Turn(Keys(t.left), t.name, Keys(t.right), name);
      CompareEqual(name, t.name);
      if Compare(name, t.name) == Greater {
        pre, post := LinkedKeys(t.right, name);
        LinkedRight(t, name, pre, post);
        pre := (Keys(t.left) + [t.name]) + pre;
      } else {
        pre, post := LinkedKeys(t.left, name);
        LinkedLeft(t, name, pre, post);
        post := post + ([t.name] + Keys(t.right));
      }
    }
  }

  lemma LinkedRight(t: Tree, name: string, pre: seq<string>, post: seq<string>)
    requires t.Node? && Compare(name, t.name) == Greater && LinkOk(t.right, Turns(t.right, name))
    requires Keys(t.right) == pre + post && Keys(LinkNode(t.right, Turns(t.right, name), name)) == pre + [name] + post
    ensures LinkOk(t, Turns(t, name))
    ensures var skipped := Keys(t.left) + [t.name];
      Keys(t) == (skipped + pre) + post && Keys(LinkNode(t, Turns(t, name), name)) == (skipped + pre) + [name] + post
  {
    var skipped := Keys(t.left) + [t.name];
    TurnsRight(t, name);
    Regroup(skipped, pre, [], post);
    Regroup(skipped, pre, [name], post);
  }

  lemma TurnsRight(t: Tree, name: string)
    requires t.Node? && Compare(name, t.name) == Greater && LinkOk(t.right, Turns(t.right, name))
    ensures LinkOk(t, Turns(t, name))
    ensures LinkNode(t, Turns(t, name), name) == t.(right := LinkNode(t.right, Turns(t.right, name), name))
  {
    assert Turns(t, name)[1..] == Turns(t.right, name);
  }

  lemma LinkedLeft(t: Tree, name: string, pre: seq<string>, post: seq<string>)
    requires t.Node? && Compare(name, t.name) == Less && LinkOk(t.left, Turns(t.left, name))
    requires Keys(t.left) == pre + post && Keys(LinkNode(t.left, Turns(t.left, name), name)) == pre + [name] + post
    ensures LinkOk(t, Turns(t, name))
    ensures var skipped := [t.name] + Keys(t.right);
      Keys(t) == pre + (post + skipped) && Keys(LinkNode(t, Turns(t, name), name)) == pre + [name] + (post + skipped)
  {
    var skipped := [t.name] + Keys(t.right);
    TurnsLeft(t, name);
    assert forall l: seq<string> {:trigger l + skipped} :: l + [t.name] + Keys(t.right) == l + skipped;
    Regroup([], pre + [name], post, skipped);
    Regroup([], pre, post, skipped);
  }

  lemma TurnsLeft(t: Tree, name: string)
    requires t.Node? && Compare(name, t.name) == Less && LinkOk(t.left, Turns(t.left, name))
    ensures LinkOk(t, Turns(t, name))
    ensures LinkNode(t, Turns(t, name), name) == t.(left := LinkNode(t.left, Turns(t.left, name), name))
  {
    assert Turns(t, name)[1..] == Turns(t.left, name);
  }

  lemma Regroup(a: seq<string>, b: seq<string>, c: seq<string>, d: seq<string>)
    ensures a + (b + c + d) == (a + b) + c + d == a + b + (c + d)
    ensures a + (b + d) == (a + b) + d
    ensures [] + b == b == b + []
  {
  }

  lemma SortedInsert(pre: seq<string>, name: string, post: seq<string>)
    requires Sorted(pre + post) && Before(pre, name) && Behind(post, name)
    ensures Sorted(pre + [name] + post)
  {
    var s := pre + [name] + post;
    forall i, j | 0 <= i < j < |s| ensures Compare(s[i], s[j]) == Less {
      if j == |pre| {
        CompareFlips(name, pre[i]);
      } else if i != |pre| {
        var i', j' := if i < |pre| then i else i - 1, if j < |pre| then j else j - 1;
        assert s[i] == (pre + post)[i'] && s[j] == (pre + post)[j'];
      }
    }
  }

  /** ovl_cache_entry_find_link: either the name is in the tree, or a node linked in here keeps the order. */
  method FindLink(root: Tree, name: string) returns (found: bool, link: seq<bool>)
    requires Sorted(Keys(root))
    ensures found <==> name in Keys(root)
    ensures !found ==>
      && LinkOk(root, link) && Sorted(Keys(LinkNode(root, link, name)))
      && forall n :: n in Keys(LinkNode(root, link, name)) <==> n == name || n in Keys(root)
  {
    found, link := false, [];
    var newp := root;
    while !found && newp.Node?
      invariant Sorted(Keys(newp)) && (name in Keys(root) <==> name in Keys(newp))
      invariant Turns(root, name) == link + Turns(newp, name)
      invariant found ==> name in Keys(newp)
      decreases !found, newp
    {
      var cmp := Strncmp(name, newp.name, |name|);
      ghost var l, r := Keys(newp.left), Keys(newp.right);
      Turn(l, newp.name, r, name);
      if cmp > 0 {
        NotAround(l + [newp.name], name);
        newp, link := newp.right, link + [true];
      } else if cmp < 0 || |name| < |newp.name| {
        NotAround([newp.name] + r, name);
        newp, link := newp.left, link + [false];
      } else {
        CompareEqual(name, newp.name);
        found := true;
      }
    }
    if !found {
      assert link + [] == link;
      ghost var pre, post := LinkedKeys(root, name);
      SortedInsert(pre, name, post);
    }
  }

  /** rb_link_node and rb_insert_color. */
  method Insert(root: Tree, link: seq<bool>, name: string) returns (root': Tree)
    requires LinkOk(root, link) && Sorted(Keys(LinkNode(root, link, name)))
    ensures Keys(root') == Keys(LinkNode(root, link, name)) && Sorted(Keys(root'))
  {
    var linked := LinkNode(root, link, name);
    root' :| Keys(root') == Keys(linked);
  }
}
