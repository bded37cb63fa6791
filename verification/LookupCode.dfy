/** namei.c as written, on strings and buffers: the name is rewritten while it is walked from its end. Each method
    is proved to compute the function of Layers with the same name. Values holding NUL bytes are not modelled. */
module LookupCode {
  import opened Paths
  import opened Layers

  /** name is the text of pre + [c] + post, and the component c starts at index prelen. */
  ghost predicate Splits(name: string, prelen: nat, c: string, post: string, pre: seq<string>, postComps: seq<string>) {
    && prelen <= |name| && ValidName(c) && AllValid(pre) && AllValid(postComps)
    && post == Join(postComps)
    && name[..prelen] == Join(pre) + "/"
    && name == Join(pre) + "/" + c + post
  }

  ghost predicate AllValid(cs: seq<string>) {
    forall i | 0 <= i < |cs| :: ValidName(cs[i])
  }

  lemma JoinSplit(pre: seq<string>, c: string, post: seq<string>)
    ensures Join(pre + [c] + post) == Join(pre) + "/" + c + Join(post)
  {
    JoinAppend(pre + [c], post);
    JoinAppend(pre, [c]);
    assert Join([c]) == "/" + c;
  }

  /** The first component of the unwalked part of an absolute text, and what follows it. */
  lemma FirstComponent(name: string, start: nat, pre: seq<string>, rest: seq<string>)
    requires rest != [] && AllValid(pre) && AllValid(rest)
    requires name == Join(pre + rest) && start == |Join(pre)| + 1
    ensures start <= |name| && name[start - 1] == '/'
    ensures var next := NextSlash(name, start);
      && name[start..next] == rest[0]
      && name[next..] == Join(rest[1..])
      && Splits(name, start, rest[0], name[next..], pre, rest[1..])
  {
    var c, post := rest[0], Join(rest[1..]);
    JoinSplit(pre, c, rest[1..]);
    assert pre + rest == pre + [c] + rest[1..];
    assert name == (Join(pre) + "/") + (c + post);
    assert name[..start] == Join(pre) + "/";
    assert name[start..] == c + post;
    NextSlashAfter(name, start, c, post);
  }

  lemma NextSlashAfter(name: string, start: nat, c: string, post: string)
    requires start <= |name| && name[start..] == c + post && '/' !in c && (post != "" ==> post[0] == '/')
    ensures NextSlash(name, start) == start + |c|
    ensures name[start..start + |c|] == c && name[start + |c|..] == post
  {
    assert forall k | start <= k < start + |c| :: name[k] == name[start..][k - start] == c[k - start];
    assert post != "" ==> name[start + |c|] == name[start..][|c|] == post[0];
  }

  /** memcpy */
  method CopyIn(buf: array<char>, at: nat, s: string)
    requires at + |s| <= buf.Length
    modifies buf
    ensures buf[..at] == old(buf[..at]) && buf[at..at + |s|] == s
  {
    forall k | 0 <= k < |s| {
      buf[at + k] := s[k];
    }
  }

  /** memmove of the first n characters to a later place */
  method MoveUp(buf: array<char>, to: nat, n: nat)
    requires to + n <= buf.Length
    modifies buf
    ensures buf[to..to + n] == old(buf[..n])
  {
    forall k | 0 <= k < n {
      buf[to + k] := buf[k];
    }
  }

  /** The buffer of ovl_check_redirect: it is as long as the value plus the padding for prefix, postfix and
      the final NUL, which is what every copy into it stays within. */
  method Compose(value: string, prefix: string, post: string) returns (text: string)
    ensures text == prefix + value + post
  {
    var buf := new char[|value| + |prefix| + |post| + 1](_ => '\0');
    CopyIn(buf, 0, value);
    assert buf[..|value|] == buf[0..|value|] == value;
    if prefix != "" {
      assert buf[..|value| + 1][..|value|] == buf[..|value|];
      MoveUp(buf, |prefix|, |value| + 1);
      assert buf[|prefix|..|prefix| + |value|] == buf[|prefix|..|prefix| + |value| + 1][..|value|];
      ghost var moved := buf[|prefix|..|prefix| + |value|];
      CopyFront(buf, prefix, |value|);
      assert buf[..|prefix| + |value|] == prefix + value;
    }
    var len := |prefix| + |value|;
    CopyIn(buf, len, post);
    text := buf[..len + |post|];
    assert text == buf[..len] + buf[len..len + |post|];
  }

  method CopyFront(buf: array<char>, s: string, n: nat)
    requires |s| + n <= buf.Length
    modifies buf
    ensures buf[..|s|] == s && buf[|s|..|s| + n] == old(buf[|s|..|s| + n])
  {
    forall k | 0 <= k < |s| {
      buf[k] := s[k];
    }
  }

  class LookupData {
    var name: string
    var isDir: bool
    var isOpaque: bool
    var stop: bool
    var last: bool
    var redirect: Option<string>
    ghost var parsed: Redirect

    constructor (n: string, l: bool)
      requires ValidName(n)
      ensures Valid() && Abstract() == StartLook(n, l)
    {
      name, isDir, isOpaque, stop, last, redirect := n, false, false, false, l, None;
      parsed := Rel(n);
    }

    /** The name is always a single name or a well-formed absolute path. */
    ghost predicate Valid()
      reads this
    {
      ValidRedirect(parsed) && name == Text(parsed)
    }

    ghost function Abstract(): (d: Look)
      requires Valid()
      reads this
      ensures WellFormed(d)
    {
      Look(parsed, isDir, isOpaque, stop, last, redirect.Some?)
    }

    /** The text being walked is that of pre + [c] + postComps, or it is the single name c. */
    ghost predicate Walking(prelen: nat, c: string, post: string, pre: seq<string>, postComps: seq<string>)
      reads this
    {
      if parsed.Abs? then Splits(name, prelen, c, post, pre, postComps)
      else c == name && prelen == 0 && post == "" && pre == [] && postComps == []
    }

    /** ovl_check_redirect: the new name is composed in a buffer of the size that ovl_getxattr allocated. The
        part of the path behind the redirected component stays what it was. */
    method CheckRedirect(xattr: Option<string>, prelen: nat, post: string, ghost c: string, ghost pre: seq<string>, ghost postComps: seq<string>)
      returns (ok: bool, ghost pre': seq<string>)
      requires Valid() && Walking(prelen, c, post, pre, postComps)
      modifies this
      ensures Valid()
      ensures Layers.CheckRedirect(xattr, old(Abstract()), pre, postComps) == if ok then Some(Abstract()) else None
      ensures ok && old(parsed).Abs? ==> parsed == Abs(pre' + postComps) && pre' != []
    {
      SplitName(name, parsed, prelen, c, post, pre, postComps);
      pre' := pre + [c];
      if xattr.None? {
        return true, pre';
      }
      var value := xattr.value;
      var valid := GetRedirectXattr(value);
      if !valid {
        return false, pre';
      }
      ghost var r;
      r, pre' := RewrittenName(name, prelen, c, post, pre, postComps, value, parsed.Abs?);
      var text;
      if value[0] == '/' {
        stop := false;
        text := Compose(value, "", post);
      } else {
        text := Compose(value, name[..prelen], post);
      }
      redirect := Some(text);
      name, parsed := text, r;
      ok := true;
    }

    /** ovl_lookup_single */
    method LookupSingle(base: Node, c: string, prelen: nat, post: string, ghost pre: seq<string>, ghost postComps: seq<string>)
      returns (ok: bool, ret: Option<Node>, ghost pre': seq<string>)
      requires Valid() && base.Dir? && Walking(prelen, c, post, pre, postComps)
      modifies this
      ensures Valid()
      ensures Layers.LookupSingle.requires(base, old(Abstract()), pre, c, postComps)
      ensures Layers.LookupSingle(base, old(Abstract()), pre, c, postComps) == if ok then Found(ret, Abstract()) else Invalid
      ensures ok && old(parsed).Abs? ==> parsed == Abs(pre' + postComps) && pre' != []
    {
      SplitName(name, parsed, prelen, c, post, pre, postComps);
      ok, ret, pre' := true, None, pre + [c];
      var lastElement := post == "";
      if c !in base.kids {
        return;
      }
      var child := base.kids[c];
      if child.Whiteout? {
        stop, isOpaque := true, true;
        return;
      }
      if child.File? {
        if isDir || !lastElement {
          stop := true;
          return;
        }
        stop, ret := true, Some(child);
        return;
      }
      if lastElement {
        isDir := true;
      }
      ret := Some(child);
      if last {
        return;
      }
      if child.isOpaque {
        stop := true;
        if lastElement {
          isOpaque := true;
        }
        return;
      }
      ok, pre' := CheckRedirect(child.redirect, prelen, post, c, pre, postComps);
    }

    /** ovl_lookup_layer. The position is kept as a distance from the end, since the prefix can change; both
        "off the rails" warnings are asserted away. */
    method LookupLayer(base: Node) returns (ok: bool, ret: Option<Node>)
      requires Valid() && base.Dir?
      modifies this
      ensures Valid()
      ensures Layers.LookupLayer(base, old(Abstract())) == if ok then Found(ret, Abstract()) else Invalid
    {
      ghost var d0 := Abstract();
      ghost var pre: seq<string>, rest := [], if d0.name.Abs? then d0.name.comps else [];
      if name[0] != '/' {
        ok, ret, pre := LookupSingle(base, name, 0, "", [], []);
        return;
      }
      assert pre + rest == rest;
      var rem := |name| - 1;
      var cur := Some(base);
      ok, ret := true, None;
      while cur.Some? && cur.value.Dir?
        invariant Valid() && ok && ret.None? == (cur.None? || pre == [])
        invariant cur.Some? ==> cur.value.Dir? && AtComponent(name, rem, pre, rest)
        invariant cur.Some? ==> parsed == Abs(pre + rest) && Walk(base, d0, [], d0.name.comps) == Walk(cur.value, Abstract(), pre, rest)
        invariant cur.None? ==> ret.None? && Walk(base, d0, [], d0.name.comps) == Found(None, Abstract())
        decreases rem, cur.Some?
      {
        FirstComponent(name, |name| - rem, pre, rest);
        var s := |name| - rem;
        var next := NextSlash(name, s);
        var thisLen := next - s;
        var end := next == |name|;
        assert name[s - 1] == '/';
        ghost var pre';
        ok, cur, pre' := LookupSingle(cur.value, name[s..next], s, name[next..], pre, rest[1..]);
        if !ok {
          return;
        }
        ret := cur;
        if end {
          break;
        }
        rem := rem - (thisLen + 1);
        NextComponent(pre', rest[1..]);
        assert rem < |name|;
        pre, rest := pre', rest[1..];
      }
    }
  }

  /** rem characters, the component rest[0] and all that follows it, are still to be walked. */
  ghost predicate AtComponent(name: string, rem: int, pre: seq<string>, rest: seq<string>) {
    && rest != [] && AllValid(pre) && AllValid(rest)
    && name == Join(pre + rest)
    && rem == |Join(rest)| - 1
    && |name| - rem == |Join(pre)| + 1
  }

  lemma NextComponent(pre: seq<string>, post: seq<string>)
    requires AllValid(pre + post) && post != []
    ensures AtComponent(Join(pre + post), |Join(post)| - 1, pre, post)
    ensures (pre + post)[..|pre + post| - |post|] == pre
  {
    JoinAppend(pre, post);
    assert forall i | 0 <= i < |pre| :: pre[i] == (pre + post)[i];
    assert forall i | 0 <= i < |post| :: post[i] == (pre + post)[|pre| + i];
  }

  lemma SplitName(name: string, parsed: Redirect, prelen: nat, c: string, post: string, pre: seq<string>, postComps: seq<string>)
    requires ValidRedirect(parsed) && name == Text(parsed)
    requires if parsed.Abs? then Splits(name, prelen, c, post, pre, postComps)
             else c == name && prelen == 0 && post == "" && pre == [] && postComps == []
    ensures parsed.Abs? ==> parsed == Abs(pre + [c] + postComps)
    ensures prelen + |post| <= |name| && name[|name| - |post|..] == post
    ensures postComps == [] <==> post == ""
    ensures ValidName(c)
  {
    if parsed.Abs? {
      JoinSplit(pre, c, postComps);
      ParseIffText(name, parsed);
      ParseIffText(name, Abs(pre + [c] + postComps));
    }
  }

  /** Replacing a component, or everything up to it, in the text is replacing it in the path. */
  lemma RewrittenName(name: string, prelen: nat, c: string, post: string, pre: seq<string>, postComps: seq<string>, value: string, abs: bool)
    returns (r: Redirect, pre': seq<string>)
    requires Parse(value).Some?
    requires if abs then Splits(name, prelen, c, post, pre, postComps)
             else prelen == 0 && post == "" && pre == [] && postComps == []
    ensures value[0] == '/' <==> Parse(value).value.Abs?
    ensures ValidRedirect(r) && Text(r) == if value[0] == '/' then value + post else name[..prelen] + value + post
    ensures r == match Parse(value).value
                 case Abs(comps) => Abs(comps + postComps)
                 case Rel(n) => if abs then Abs(pre + [n] + postComps) else Rel(n)
    ensures abs ==> r == Abs(pre' + postComps) && pre' != []
  {
    pre' := [];
    ParseIffText(value, Parse(value).value);
    match Parse(value).value
    case Abs(comps) =>
      JoinAppend(comps, postComps);
      r, pre' := Abs(comps + postComps), comps;
    case Rel(n) =>
      if abs {
        JoinSplit(pre, value, postComps);
        r, pre' := Abs(pre + [n] + postComps), pre + [n];
      } else {
        assert name[..prelen] + value + post == value;
        r := Rel(n);
      }
  }

  /** What is still to come, put behind what the stack already holds. */
  function After(found: seq<LPath>, r: Stack): Stack {
    if r.Ok? then Ok(found + r.lower) else r
  }

  lemma AfterAfter(found: seq<LPath>, x: LPath, r: Stack)
    ensures After(found, After([x], r)) == After(found + [x], r)
    ensures After(found, Ok([x])) == Ok(found + [x]) && After(found, Ok([])) == Ok(found) && After([], r) == r
  {
    assert r.Ok? ==> [] + r.lower == r.lower;
    if r.Ok? {
      assert found + ([x] + r.lower) == (found + [x]) + r.lower;
    }
  }

  datatype Turn = Failed(error: LookupError) | Nothing | Final(x: LPath) | More(x: LPath, restart: bool)

  /** The answer of the layer at position i of the stack. */
  function Ask(roots: seq<LPath>, poe: seq<LPath>, i: nat, d: Look, follow: bool): Found
    requires i < |poe| && poe[i].node.Dir? && WellFormed(d)
  {
    Layers.LookupLayer(poe[i].node, d.(last := LastFlag(follow, poe, i, |roots|)))
  }

  function TurnOf(f: Found, idx: nat, atRoot: bool, follow: bool): Turn {
    if f.Invalid? then Failed(EINVAL)
    else if f.node.None? then Nothing
    else if f.look.redirected && !follow then Failed(EPERM)
    else if f.look.stop then Final(LPath(idx, f.node.value))
    else More(LPath(idx, f.node.value), f.look.redirected && f.look.name.Abs? && !atRoot)
  }

  /** The part of the loop body that asks one layer and decides how to go on. */
  method AskLayer(roots: seq<LPath>, poe: seq<LPath>, atRoot: bool, i: nat, d: LookupData, follow: bool) returns (t: Turn)
    requires d.Valid() && i < |poe| && poe[i].node.Dir?
    modifies d
    ensures d.Valid()
    ensures t == TurnOf(Ask(roots, poe, i, old(d.Abstract()), follow), poe[i].idx, atRoot, follow)
    ensures Ask(roots, poe, i, old(d.Abstract()), follow).Found? ==> Ask(roots, poe, i, old(d.Abstract()), follow).look == d.Abstract()
  {
    d.last := LastFlag(follow, poe, i, |roots|);
    var ok, child := d.LookupLayer(poe[i].node);
    if !ok {
      return Failed(EINVAL);
    }
    if child.None? {
      return Nothing;
    }
    var x := LPath(poe[i].idx, child.value);
    if d.redirect.Some? && !follow {
      return Failed(EPERM);
    }
    if d.stop {
      return Final(x);
    }
    StartsWithSlash(d.parsed);
    t := More(x, d.redirect.Some? && d.name[0] == '/' && !atRoot);
  }

  lemma StartsWithSlash(r: Redirect)
    requires ValidRedirect(r)
    ensures Text(r) != "" && (Text(r)[0] == '/' <==> r.Abs?)
  {
  }

  /** The loop of ovl_lookup, between two turns: what the stack will become when the rest is added; none if the
      position, or the room left on the stack, is not what the loop keeps up. */
  ghost function Pending(roots: seq<LPath>, poe: seq<LPath>, atRoot: bool, i: nat, d: Look, follow: bool, stack: seq<LPath>): Option<Stack> {
    if RootsOk(roots) && StackOk(poe, |roots|) && (atRoot ==> poe == roots) && NameFitsStack(d, atRoot) && (i < |poe| ==> |stack| < poe[i].idx)
    then Some(After(stack, LowerLoop(roots, poe, atRoot, i, d, follow)))
    else None
  }

  /** Layers that can still be asked. */
  function Left(roots: seq<LPath>, poe: seq<LPath>, i: nat): int {
    if i < |poe| then |roots| + 1 - poe[i].idx else 0
  }

  /** One turn of the loop: it ends with the result, or leaves fewer layers to ask for the same result; and there is
      a free slot on the stack. */
  lemma Advance(roots: seq<LPath>, poe: seq<LPath>, atRoot: bool, i: nat, d: Look, follow: bool, stack: seq<LPath>, result: Stack)
    requires Pending(roots, poe, atRoot, i, d, follow, stack) == Some(result) && i < |poe| && !d.stop
    ensures var f := Ask(roots, poe, i, d, follow);
      var t := TurnOf(f, poe[i].idx, atRoot, follow);
      && |stack| < |roots| && Left(roots, poe, i) > 0
      && (t.Failed? ==> result == Err(t.error))
      && (t.Final? ==> result == Ok(stack + [t.x]))
      && (t.Nothing? ==> Pending(roots, poe, atRoot, i + 1, f.look, follow, stack) == Some(result))
      && (t.More? && !t.restart ==> Pending(roots, poe, atRoot, i + 1, f.look, follow, stack + [t.x]) == Some(result))
      && (t.More? && t.restart ==>
            && Left(roots, roots, poe[i].idx) < Left(roots, poe, i)
            && Pending(roots, roots, true, poe[i].idx, f.look, follow, stack + [t.x]) == Some(result))
      && Left(roots, poe, i + 1) < Left(roots, poe, i)
  {
    var f := Ask(roots, poe, i, d, follow);
    var t := TurnOf(f, poe[i].idx, atRoot, follow);
    if t.Final? {
      AfterAfter(stack, t.x, Ok([]));
    } else if t.More? {
      AfterAfter(stack, t.x, if t.restart then LowerLoop(roots, roots, true, poe[i].idx, f.look, follow)
                             else LowerLoop(roots, poe, atRoot, i + 1, f.look, follow));
    }
  }

  lemma Exhausted(roots: seq<LPath>, poe: seq<LPath>, atRoot: bool, i: nat, d: Look, follow: bool, stack: seq<LPath>, result: Stack)
    requires Pending(roots, poe, atRoot, i, d, follow, stack) == Some(result) && (d.stop || i >= |poe|)
    ensures result == Ok(stack)
  {
    AfterAfter(stack, LPath(0, Whiteout), Ok([]));
  }

  /** The loop of ovl_lookup over the lower layers. The stack is allocated, with numlower slots, whenever an entry
      is stored, and there is a free slot. */
  method LookupLowers(roots: seq<LPath>, poe0: seq<LPath>, atRoot0: bool, d: LookupData, follow: bool) returns (r: Stack)
    requires RootsOk(roots) && StackOk(poe0, |roots|) && (atRoot0 ==> poe0 == roots)
    requires d.Valid() && NameFitsStack(d.Abstract(), atRoot0)
    modifies d
    ensures r == LowerLoop(roots, poe0, atRoot0, 0, old(d.Abstract()), follow)
  {
    ghost var expected := LowerLoop(roots, poe0, atRoot0, 0, d.Abstract(), follow);
    AfterAfter([], LPath(0, Whiteout), expected);
    var poe, atRoot := poe0, atRoot0;
    var stack: seq<LPath> := [];
    var hasStack := !d.stop && |poe| > 0;
    var i: nat := 0;
    while !d.stop && i < |poe|
      invariant d.Valid()
      invariant !hasStack ==> d.stop || i >= |poe|
      invariant Pending(roots, poe, atRoot, i, d.Abstract(), follow, stack) == Some(expected)
      decreases Left(roots, poe, i)
    {
      ghost var d0 := d.Abstract();
      var t := AskLayer(roots, poe, atRoot, i, d, follow);
      Advance(roots, poe, atRoot, i, d0, follow, stack, expected);
      if t.Failed? {
        return Err(t.error);
      }
      if !t.Nothing? {
        assert hasStack && |stack| < |roots|;
        stack := stack + [t.x];
        if t.Final? {
          return Ok(stack);
        }
      }
      if t.More? && t.restart {
        // layer idx sits at position idx - 1 of the root's stack, so the next one is at idx
        i, poe, atRoot := poe[i].idx, roots, true;
      } else {
        i := i + 1;
      }
    }
    Exhausted(roots, poe, atRoot, i, d.Abstract(), follow, stack, expected);
    r := Ok(stack);
  }

  /** ovl_lookup: the upper lookup, then the lower layers. An absolute redirect moves on to the root's stack. */
  method Lookup(roots: seq<LPath>, parent: Entry, name: string, follow: bool) returns (e: Entry)
    requires RootsOk(roots) && EntryOk(parent, |roots|) && parent.IsDir() && ValidName(name)
    ensures e == Layers.Lookup(roots, parent, name, follow)
  {
    var poe, atRoot := parent.lower, false;
    var d := new LookupData(name, if follow then false else |poe| == 0);
    IncreasingFits(poe, 1, |roots|);
    var upperDentry: Option<Node> := None;
    var upperOpaque := false;
    if parent.UpperDir() {
      var ok;
      ok, upperDentry := d.LookupLayer(parent.upper.value);
      if !ok {
        return Bad(EINVAL);
      }
      // an upper file ends the search: no stack will be allocated, and its origin may take the stack's place
      assert upperDentry.Some? && !d.isDir ==> d.stop;
      if d.redirect.Some? && d.name[0] == '/' {
        poe, atRoot := roots, true;
      }
      upperOpaque := d.isOpaque;
    }
    var r := LookupLowers(roots, poe, atRoot, d, follow);
    match r
    case Err(error) => e := Bad(error);
    case Ok(lower) => e := Entry(upperDentry, upperOpaque, lower);
  }
}
