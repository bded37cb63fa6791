/** Redirect values: a single name, resolved beside the parent, or an absolute path inside the layers. */
module Paths {

  datatype Option<+T> = None | Some(value: T)

  datatype Redirect = Rel(name: string) | Abs(comps: seq<string>)

  predicate ValidName(n: string) {
    n != "" && '/' !in n
  }

  predicate ValidRedirect(r: Redirect) {
    match r
    case Rel(n) => ValidName(n)
    case Abs(cs) => cs != [] && forall i | 0 <= i < |cs| :: ValidName(cs[i])
  }

  function Join(cs: seq<string>): (s: string)
    ensures cs == [] <==> s == ""
    ensures cs != [] ==> s[0] == '/'
  {
    if cs == [] then "" else "/" + cs[0] + Join(cs[1..])
  }

  function Text(r: Redirect): string {
    match r
    case Rel(n) => n
    case Abs(cs) => Join(cs)
  }

  lemma {:induction false} JoinAppend(a: seq<string>, b: seq<string>)
    ensures Join(a + b) == Join(a) + Join(b)
  {
    if a == [] {
      assert a + b == b;
    } else {
      assert (a + b)[1..] == a[1..] + b;
      JoinAppend(a[1..], b);
    }
  }

  /** strchrnul(s + i, '/') - s */
  function NextSlash(s: string, i: nat): (n: nat)
    requires i <= |s|
    ensures i <= n <= |s|
    ensures forall k | i <= k < n :: s[k] != '/'
    ensures n < |s| ==> s[n] == '/'
    decreases |s| - i
  {
    if i == |s| || s[i] == '/' then i else NextSlash(s, i + 1)
  }

  /** The components of an absolute path; none when a component is empty. */
  function ParseAbs(s: string): (r: Option<seq<string>>)
    requires s != "" && s[0] == '/'
    ensures r.Some? ==> r.value != []
    decreases |s|
  {
    var n := NextSlash(s, 1);
    if n == 1 then None
    else if n == |s| then Some([s[1..]])
    else
      match ParseAbs(s[n..])
      case None => None
      case Some(cs) => Some([s[1..n]] + cs)
  }

  /** The meaning of a redirect xattr value; none when ovl_get_redirect_xattr calls it invalid. */
  function Parse(value: string): Option<Redirect> {
    if value == "" then None
    else if value[0] == '/' then
      match ParseAbs(value)
      case None => None
      case Some(cs) => Some(Abs(cs))
    else if '/' in value then None
    else Some(Rel(value))
  }

  lemma {:induction false} ParseAbsJoin(cs: seq<string>)
    requires cs != [] && forall i | 0 <= i < |cs| :: ValidName(cs[i])
    ensures ParseAbs(Join(cs)) == Some(cs)
  {
    var s := Join(cs);
    var n := NextSlash(s, 1);
    assert s == "/" + cs[0] + Join(cs[1..]);
    assert forall k | 1 <= k < 1 + |cs[0]| :: s[k] == cs[0][k - 1] && s[k] != '/';
    assert n >= 1 + |cs[0]|;
    if |cs| > 1 {
      assert s[1 + |cs[0]|..] == Join(cs[1..]);
      assert s[1 + |cs[0]|] == '/';
      assert n == 1 + |cs[0]|;
      ParseAbsJoin(cs[1..]);
      assert cs == [cs[0]] + cs[1..];
    } else {
      assert cs == [cs[0]] && Join(cs[1..]) == "";
      assert |s| == 1 + |cs[0]| == n && s[1..] == cs[0];
    }
  }

  lemma {:induction false} ParseAbsSound(s: string)
    requires s != "" && s[0] == '/' && ParseAbs(s).Some?
    ensures var cs := ParseAbs(s).value; Join(cs) == s && forall i | 0 <= i < |cs| :: ValidName(cs[i])
    decreases |s|
  {
    var n := NextSlash(s, 1);
    var cs := ParseAbs(s).value;
    if n == |s| {
      assert cs == [s[1..]];
      assert Join(cs) == "/" + s[1..] + Join(cs[1..]);
    } else {
      ParseAbsSound(s[n..]);
      assert cs[1..] == ParseAbs(s[n..]).value;
      assert s == "/" + s[1..n] + s[n..];
    }
  }

  /** Writing a redirect out and parsing it are inverse: the valid texts are exactly those of valid redirects. */
  lemma ParseIffText(value: string, r: Redirect)
    ensures Parse(value) == Some(r) <==> ValidRedirect(r) && value == Text(r)
  {
    if value != "" && value[0] == '/' && ParseAbs(value).Some? {
      ParseAbsSound(value);
    }
    if ValidRedirect(r) && value == Text(r) && r.Abs? {
      ParseAbsJoin(r.comps);
    }
  }

  /** ovl_get_redirect_xattr: the scan for empty components. NUL bytes inside the value are not modelled. */
  method GetRedirectXattr(buf: string) returns (valid: bool)
    ensures valid <==> Parse(buf).Some?
  {
    if buf == "" {
      return false;
    }
    if buf[0] == '/' {
      assert buf[0..] == buf;
      var s := 0;
      while s < |buf| && buf[s] == '/'
        invariant s <= |buf|
        invariant s < |buf| ==> buf[s] == '/' && (ParseAbs(buf[0..]).Some? <==> ParseAbs(buf[s..]).Some?)
        invariant s == |buf| ==> ParseAbs(buf[0..]).Some?
      {
        ParseAbsStep(buf, s);
        s := s + 1;
        var next := NextSlash(buf, s);
        if s == next {
          return false;
        }
        s := next;
      }
      return true;
    } else {
      return '/' !in buf;
    }
  }

  /** One turn of the scan: the text from s on is valid iff its first component is not empty and the text
      after that component is empty or valid. */
  lemma ParseAbsStep(buf: string, s: nat)
    requires s < |buf| && buf[s] == '/'
    ensures var next := NextSlash(buf, s + 1);
      ParseAbs(buf[s..]).Some? <==> next != s + 1 && (next == |buf| || ParseAbs(buf[next..]).Some?)
  {
    NextSlashShift(buf, s, s + 1);
    var next := NextSlash(buf, s + 1);
    assert next < |buf| ==> buf[s..][next - s..] == buf[next..];
  }

  lemma {:induction false} NextSlashShift(s: string, d: nat, i: nat)
    requires d <= i <= |s|
    ensures NextSlash(s[d..], i - d) + d == NextSlash(s, i)
    decreases |s| - i
  {
    if i < |s| && s[i] != '/' {
      NextSlashShift(s, d, i + 1);
    }
  }

  // ---------- building an absolute redirect ----------

  /** The path that ovl_get_redirect renders: parts go from the dentry up towards the root, each a stored
      redirect or else a name, and an absolute one ends the climb. */
  function RenderUp(parts: seq<string>): string {
    if parts == [] then ""
    else if parts[0] != "" && parts[0][0] == '/' then parts[0]
    else RenderUp(parts[1..]) + "/" + parts[0]
  }

  /** ovl_get_redirect for an absolute redirect: the buffer is filled from its end; no result stands for
      the -EXDEV of a path longer than the limit. */
  method GetRedirect(parts: seq<string>, redirectMax: nat) returns (ret: Option<string>)
    requires forall i | 0 <= i < |parts| :: parts[i] != ""
    ensures ret == if |RenderUp(parts)| <= redirectMax then Some(RenderUp(parts)) else None
  {
    var buf := new char[redirectMax + 1];
    var bufLen := redirectMax;
    buf[bufLen] := '\0';
    var d := 0;
    while d < |parts|
      invariant 0 <= d <= |parts| && 0 <= bufLen <= redirectMax
      invariant RenderUp(parts) == RenderUp(parts[d..]) + buf[bufLen..redirectMax]
    {
      var name := parts[d];
      var thisLen := |name|;
      if thisLen + (if name[0] != '/' then 1 else 0) > bufLen {
        return None;
      }
      ghost var tail := buf[bufLen..redirectMax];
      bufLen := bufLen - thisLen;
      forall i | 0 <= i < thisLen {
        buf[bufLen + i] := name[i];
      }
      assert buf[bufLen..redirectMax] == name + tail;
      d := d + 1;
      assert parts[d - 1..][1..] == parts[d..];
      if buf[bufLen] == '/' {
        assert RenderUp(parts) == name + tail;
        return Some(buf[bufLen..redirectMax]);
      }
      bufLen := bufLen - 1;
      buf[bufLen] := '/';
      assert buf[bufLen..redirectMax] == "/" + (name + tail);
    }
    ret := Some(buf[bufLen..redirectMax]);
    assert RenderUp(parts) == buf[bufLen..redirectMax];
  }
}
