/** The parts of Go's `path` package (slash-separated paths) that the store and
    the worker use to name styles, job directories and artifact files. */
module GoPath {
  import opened GoStrings

  /** The file part of `path.Split(p)`: everything after the final slash. */
  function LastElement(p: string): (r: string)
    ensures '/' !in r && |r| <= |p|
  {
    if p == [] || p[|p| - 1] == '/' then "" else LastElement(p[..|p| - 1]) + [p[|p| - 1]]
  }

  /** `path.Ext(p)`: the suffix of the final element that starts at its last dot,
      or "" when the final element has no dot. */
  function Ext(p: string): (r: string)
    ensures |r| <= |p|
    ensures r != [] ==> r[0] == '.' && '.' !in r[1..] && '/' !in r && '.' in p
  {
    if p == [] || p[|p| - 1] == '/' then ""
    else if p[|p| - 1] == '.' then "."
    else
      var e := Ext(p[..|p| - 1]);
      if e == [] then [] else e + [p[|p| - 1]]
  }

  /** A path element that cleaning leaves alone: not empty, not "." or "..", no slash. */
  predicate IsPlainElement(e: string)
  {
    e != "" && e != "." && e != ".." && '/' !in e
  }

  predicate AllPlain(es: seq<string>)
  {
    forall i :: 0 <= i < |es| ==> IsPlainElement(es[i])
  }

  /** The prefix of a rooted path. */
  function Root(rooted: bool): string
  {
    if rooted then "/" else ""
  }

  /** The element-by-element pass of `path.Clean`: drops empty and "." elements,
      lets ".." remove the element before it, drops ".." at the root of a rooted
      path and keeps it at the start of a relative one. */
  function CleanElements(out: seq<string>, rest: seq<string>, rooted: bool): seq<string>
    decreases |rest|
  {
    if rest == [] then out
    else
      var e := rest[0];
      if e == "" || e == "." then CleanElements(out, rest[1..], rooted)
      else if e == ".." then
        if |out| > 0 && out[|out| - 1] != ".." then CleanElements(out[..|out| - 1], rest[1..], rooted)
        else if rooted then CleanElements(out, rest[1..], rooted)
        else CleanElements(out + [".."], rest[1..], rooted)
      else CleanElements(out + [e], rest[1..], rooted)
  }

  /** `path.Clean(p)`: the shortest equivalent path; "." for an empty result. */
  function Clean(p: string): (r: string)
    ensures r != ""
    ensures p != "" ==> (r[0] == '/' <==> p[0] == '/')
  {
    if p == "" then "."
    else
      var rooted := p[0] == '/';
      var body := JoinWith(CleanElements([], Split(p, '/'), rooted), '/');
      if rooted then "/" + body
      else if body == "" then "."
      else
        assert body[0] != '/' by { CleanElementsNoSlashStart([], Split(p, '/'), rooted); }
        body
  }

  /** `path.Join(elems...)`: the elements from the first non-empty one on,
      joined by slashes and cleaned; "" when every element is empty. */
  function Join(elems: seq<string>): string
  {
    if elems == [] then ""
    else if elems[0] == "" then Join(elems[1..])
    else Clean(JoinWith(elems, '/'))
  }

  /** Cleaning never produces an element that starts a relative path with a slash. */
  lemma {:induction false} CleanElementsNoSlashStart(out: seq<string>, rest: seq<string>, rooted: bool)
    requires forall i :: 0 <= i < |out| ==> out[i] != "" && '/' !in out[i]
    requires forall i :: 0 <= i < |rest| ==> '/' !in rest[i]
    ensures var r := CleanElements(out, rest, rooted);
            forall i :: 0 <= i < |r| ==> r[i] != "" && '/' !in r[i]
    ensures var r := CleanElements(out, rest, rooted);
            r != [] ==> JoinWith(r, '/') != [] && JoinWith(r, '/')[0] != '/'
    decreases |rest|
  {
    if rest != [] {
      var e := rest[0];
      if e == "" || e == "." {
        CleanElementsNoSlashStart(out, rest[1..], rooted);
      } else if e == ".." {
        if |out| > 0 && out[|out| - 1] != ".." {
          CleanElementsNoSlashStart(out[..|out| - 1], rest[1..], rooted);
        } else if rooted {
          CleanElementsNoSlashStart(out, rest[1..], rooted);
        } else {
          CleanElementsNoSlashStart(out + [".."], rest[1..], rooted);
        }
      } else {
        CleanElementsNoSlashStart(out + [e], rest[1..], rooted);
      }
    } else if out != [] {
      JoinWithHead(out, '/');
    }
  }

  /** Plain elements pass through cleaning unchanged. */
  lemma {:induction false} CleanElementsPlain(out: seq<string>, ps: seq<string>, rooted: bool)
    requires AllPlain(ps)
    ensures CleanElements(out, ps, rooted) == out + ps
    decreases |ps|
  {
    if ps != [] {
      CleanElementsPlain(out + [ps[0]], ps[1..], rooted);
      assert out + [ps[0]] + ps[1..] == out + ps;
    }
  }

  /** A path made of plain elements, rooted or not, is already clean. */
  lemma CleanPlainPath(rooted: bool, qs: seq<string>)
    requires |qs| >= 1 && AllPlain(qs)
    ensures Clean(Root(rooted) + JoinWith(qs, '/')) == Root(rooted) + JoinWith(qs, '/')
  {
    var body := JoinWith(qs, '/');
    var p := Root(rooted) + body;
    SplitJoin(qs, '/');
    JoinWithHead(qs, '/');
    CleanElementsPlain([], qs, rooted);
    assert [] + qs == qs;
    if rooted {
      SplitConcat("", body, '/');
      assert p == "" + ['/'] + body;
      assert Split(p, '/') == [""] + qs;
      assert CleanElements([], Split(p, '/'), true) == qs;
    } else {
      assert p == body;
      assert Split(p, '/') == qs;
    }
    assert p != "" && (p[0] == '/' <==> rooted);
    assert CleanElements([], Split(p, '/'), rooted) == qs;
  }

  /** Joining plain elements under a plain base path puts them after the base,
      separated by single slashes. */
  lemma JoinUnderPlainPath(rooted: bool, bs: seq<string>, ps: seq<string>)
    requires AllPlain(bs) && AllPlain(ps) && |ps| >= 1
    ensures Join([Root(rooted) + JoinWith(bs, '/')] + ps) == Root(rooted) + JoinWith(bs + ps, '/')
  {
    if !rooted && bs == [] {
      assert Root(rooted) + JoinWith(bs, '/') == "";
      RelativeJoin(ps);
      assert bs + ps == ps;
    } else if rooted && bs == [] {
      assert Root(rooted) + JoinWith(bs, '/') == "/";
      RootedJoin(ps);
      assert bs + ps == ps;
    } else {
      NestedJoin(rooted, bs, ps);
    }
  }

  /** Joining plain elements under the empty base path. */
  lemma RelativeJoin(ps: seq<string>)
    requires AllPlain(ps) && |ps| >= 1
    ensures Join([""] + ps) == JoinWith(ps, '/')
  {
    var q := [""] + ps;
    assert q != [] && q[0] == "" && q[1..] == ps;
    assert IsPlainElement(ps[0]);
    assert Join(ps) == Clean(JoinWith(ps, '/'));
    CleanPlainPath(false, ps);
    assert Root(false) + JoinWith(ps, '/') == JoinWith(ps, '/');
  }

  /** `Join` of elements whose first one is not empty cleans their slash-joined text. */
  lemma JoinFromFirst(elems: seq<string>)
    requires elems != [] && elems[0] != ""
    ensures Join(elems) == Clean(JoinWith(elems, '/'))
  {
  }

  /** Elements that are each plain stay plain when concatenated. */
  lemma AllPlainAppend(bs: seq<string>, ps: seq<string>)
    requires AllPlain(bs) && AllPlain(ps)
    ensures AllPlain(bs + ps)
  {
    forall i | 0 <= i < |bs + ps|
      ensures IsPlainElement((bs + ps)[i])
    {
      if i < |bs| {
        assert (bs + ps)[i] == bs[i];
      } else {
        assert (bs + ps)[i] == ps[i - |bs|];
      }
    }
  }

  /** The slash-joined text of a base path followed by more elements is the base
      elements and the others joined under the base's root. */
  lemma JoinTextUnderBase(rooted: bool, bs: seq<string>, ps: seq<string>)
    requires |ps| >= 1 && |bs| >= 1 && bs[0] != ""
    ensures Root(rooted) + JoinWith(bs, '/') != ""
    ensures JoinWith([Root(rooted) + JoinWith(bs, '/')] + ps, '/') == Root(rooted) + JoinWith(bs + ps, '/')
  {
    var base := JoinWith(bs, '/');
    var tail := JoinWith(ps, '/');
    var b := Root(rooted) + base;
    JoinWithHead(bs, '/');
    JoinWithAppend([b], ps, '/');
    JoinWithAppend(bs, ps, '/');
    assert JoinWith([b], '/') == b;
    Reassociate(Root(rooted), base, tail, JoinWith([b] + ps, '/'), JoinWith(bs + ps, '/'));
  }

  /** Moving the root prefix out of a joined text. */
  lemma Reassociate(root: string, base: string, tail: string, whole: string, rest: string)
    requires whole == (root + base) + ['/'] + tail && rest == base + ['/'] + tail
    ensures whole == root + rest
  {
  }

  /** Joining plain elements under a base path with at least one plain element. */
  lemma NestedJoin(rooted: bool, bs: seq<string>, ps: seq<string>)
    requires AllPlain(bs) && AllPlain(ps) && |ps| >= 1 && |bs| >= 1
    ensures Join([Root(rooted) + JoinWith(bs, '/')] + ps) == Root(rooted) + JoinWith(bs + ps, '/')
  {
    assert IsPlainElement(bs[0]);
    JoinTextUnderBase(rooted, bs, ps);
    JoinFromFirst([Root(rooted) + JoinWith(bs, '/')] + ps);
    AllPlainAppend(bs, ps);
    CleanPlainPath(rooted, bs + ps);
  }

  /** Two leading separators split off two empty pieces. */
  lemma SplitTwoSeparators(body: string)
    ensures Split("//" + body, '/') == ["", ""] + Split(body, '/')
  {
    assert ("//" + body)[1..] == "/" + body;
    assert ("/" + body)[1..] == body;
  }

  /** Cleaning a rooted path drops two leading empty elements. */
  lemma CleanTwoEmpty(ps: seq<string>)
    requires AllPlain(ps)
    ensures CleanElements([], ["", ""] + ps, true) == ps
  {
    assert (["", ""] + ps)[1..] == [""] + ps;
    assert ([""] + ps)[1..] == ps;
    CleanElementsPlain([], ps, true);
    assert [] + ps == ps;
  }

  /** `Clean` of a rooted path is the root followed by its cleaned elements. */
  lemma CleanRooted(p: string, es: seq<string>)
    requires p != "" && p[0] == '/' && CleanElements([], Split(p, '/'), true) == es
    ensures Clean(p) == "/" + JoinWith(es, '/')
  {
  }

  /** The slash-joined text of "/" and more elements starts with two slashes. */
  lemma RootedJoinText(ps: seq<string>)
    requires |ps| >= 1
    ensures JoinWith(["/"] + ps, '/') == "//" + JoinWith(ps, '/')
  {
    var body := JoinWith(ps, '/');
    JoinWithAppend(["/"], ps, '/');
    assert JoinWith(["/"], '/') == "/";
    SlashSlash(body, JoinWith(["/"] + ps, '/'));
  }

  /** A slash, a separator and a text are two slashes and that text. */
  lemma SlashSlash(body: string, whole: string)
    requires whole == "/" + ['/'] + body
    ensures whole == "//" + body
  {
  }

  /** Joining plain elements under the root directory "/". */
  lemma RootedJoin(ps: seq<string>)
    requires AllPlain(ps) && |ps| >= 1
    ensures Join(["/"] + ps) == "/" + JoinWith(ps, '/')
  {
    var body := JoinWith(ps, '/');
    var p := "//" + body;
    RootedJoinText(ps);
    SplitTwoSeparators(body);
    SplitJoin(ps, '/');
    CleanTwoEmpty(ps);
    CleanRooted(p, ps);
    JoinFromFirst(["/"] + ps);
  }
}
