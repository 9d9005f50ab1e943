/** A segment-list model of the POSIX `path.join`, `path.normalize` and
    `path.dirname` calls the gateway makes. Every path is treated as
    absolute (the directories involved all derive from an absolute root),
    and a trailing separator is not kept. */
module Paths {
  import Seqs

  /** `s.split('/')`: at least one piece, none containing `/`. */
  function Split(s: string): (r: seq<string>)
    ensures |r| >= 1
  {
    if |s| == 0 then [""]
    else
      var t := Split(s[1..]);
      if s[0] == '/' then [""] + t else [[s[0]] + t[0]] + t[1..]
  }

  /** A segment that survives normalisation unchanged. */
  predicate Plain(seg: string) {
    seg != "" && seg != "." && seg != ".." && '/' !in seg
  }

  predicate Canonical(segs: seq<string>) {
    forall i :: 0 <= i < |segs| ==> Plain(segs[i])
  }

  predicate NoParentSteps(segs: seq<string>) {
    forall i :: 0 <= i < |segs| ==> segs[i] != ".."
  }

  predicate SlashFree(segs: seq<string>) {
    forall i :: 0 <= i < |segs| ==> '/' !in segs[i]
  }

  /** Walks the segments onto a directory stack: empty and `.` segments
      vanish, `..` pops (and stays at the root), anything else is pushed. */
  function Resolve(stack: seq<string>, segs: seq<string>): (r: seq<string>)
    decreases |segs|
    ensures Canonical(stack) && SlashFree(segs) ==> Canonical(r)
  {
    if |segs| == 0 then stack
    else
      var seg := segs[0];
      var next :=
        if seg == "" || seg == "." then stack
        else if seg == ".." then (if |stack| == 0 then [] else stack[..|stack| - 1])
        else stack + [seg];
      assert SlashFree(segs) ==> SlashFree(segs[1..]) && '/' !in seg by {
        if SlashFree(segs) {
          assert forall i :: 0 <= i < |segs| - 1 ==> segs[1..][i] == segs[i + 1];
          assert segs[0] == seg;
        }
      }
      Resolve(next, segs[1..])
  }

  /** The text of a canonical segment list. */
  function Render(segs: seq<string>): string {
    if |segs| == 0 then "/" else RenderSegs(segs)
  }

  function RenderSegs(segs: seq<string>): string {
    if |segs| == 0 then "" else "/" + segs[0] + RenderSegs(segs[1..])
  }

  /** The segments `path.normalize` keeps. */
  function Canon(p: string): seq<string> {
    Resolve([], Split(p))
  }

  /** `path.normalize(p)`. */
  function Normalize(p: string): string {
    Render(Canon(p))
  }

  /** `path.join(a, b)`. */
  function Join(a: string, b: string): string {
    Normalize(a + "/" + b)
  }

  /** `path.dirname(p)` of a normalised path. */
  function Dirname(p: string): string {
    var segs := Canon(p);
    Render(if |segs| == 0 then [] else segs[..|segs| - 1])
  }

  lemma {:induction false} SplitSlashFree(s: string)
    ensures SlashFree(Split(s))
  {
    if |s| > 0 {
      SplitSlashFree(s[1..]);
      var t := Split(s[1..]);
      if s[0] != '/' {
        var r := [[s[0]] + t[0]] + t[1..];
        forall i | 0 <= i < |r| ensures '/' !in r[i] {
          if i > 0 { assert r[i] == t[i]; }
        }
      }
    }
  }

  lemma {:induction false} SplitSegment(x: string)
    requires '/' !in x
    ensures Split(x) == [x]
  {
    if |x| > 0 {
      assert '/' !in x[1..] by {
        assert forall c :: c in x[1..] ==> c in x;
      }
      SplitSegment(x[1..]);
      assert [x[0]] + x[1..] == x;
    }
  }

  /** One step of `Split`: a separator starts a new piece, any other
      character joins the first piece of the rest. */
  lemma SplitCons(c: char, rest: string)
    ensures Split([c] + rest)
            == if c == '/' then [""] + Split(rest) else [[c] + Split(rest)[0]] + Split(rest)[1..]
  {
    assert ([c] + rest)[1..] == rest;
  }

  /** Gluing a character onto the first piece commutes with appending
      further pieces. */
  lemma GlueFirst(c: char, ta: seq<string>, tb: seq<string>)
    requires |ta| >= 1
    ensures [[c] + (ta + tb)[0]] + (ta + tb)[1..] == [[c] + ta[0]] + ta[1..] + tb
  {
    assert (ta + tb)[0] == ta[0];
    assert (ta + tb)[1..] == ta[1..] + tb;
  }

  /** One character in front of both sides of `SplitAtSlash`. */
  lemma SplitAtSlashStep(c: char, a: string, b: string)
    requires Split(a + "/" + b) == Split(a) + Split(b)
    ensures Split([c] + (a + "/" + b)) == Split([c] + a) + Split(b)
  {
    SplitCons(c, a + "/" + b);
    SplitCons(c, a);
    if c != '/' {
      GlueFirst(c, Split(a), Split(b));
    } else {
      ConsAssoc("", Split(a), Split(b));
    }
  }

  lemma ConsAssoc(h: string, u: seq<string>, v: seq<string>)
    ensures [h] + (u + v) == [h] + u + v
  {
  }

  /** Splitting at a separator splits the two halves independently. */
  lemma {:induction false} SplitAtSlash(a: string, b: string)
    ensures Split(a + "/" + b) == Split(a) + Split(b)
  {
    if |a| == 0 {
      assert a + "/" + b == ['/'] + b;
      SplitCons('/', b);
    } else {
      SplitAtSlash(a[1..], b);
      SplitAtSlashStep(a[0], a[1..], b);
      assert [a[0]] + a[1..] == a;
      assert [a[0]] + (a[1..] + "/" + b) == a + "/" + b;
    }
  }

  /** A rendered list splits back into its segments. */
  lemma {:induction false} SplitRendered(x: string, segs: seq<string>)
    requires '/' !in x && Canonical(segs)
    decreases |segs|
    ensures Split(x + RenderSegs(segs)) == [x] + segs
  {
    if |segs| == 0 {
      assert x + RenderSegs(segs) == x;
      SplitSegment(x);
    } else {
      var tail := segs[0] + RenderSegs(segs[1..]);
      RenderFirst(x, segs);
      SplitAtSlash(x, tail);
      SplitSegment(x);
      CanonicalTail(segs);
      SplitRendered(segs[0], segs[1..]);
      assert [segs[0]] + segs[1..] == segs;
    }
  }

  lemma RenderFirst(x: string, segs: seq<string>)
    requires |segs| > 0
    ensures x + RenderSegs(segs) == x + "/" + (segs[0] + RenderSegs(segs[1..]))
  {
    SlashRegroup(x, segs[0], RenderSegs(segs[1..]));
  }

  lemma SlashRegroup(x: string, a: string, b: string)
    ensures x + ("/" + a + b) == x + "/" + (a + b)
  {
  }

  lemma CanonicalTail(segs: seq<string>)
    requires |segs| > 0 && Canonical(segs)
    ensures Canonical(segs[1..])
  {
    assert forall i :: 0 <= i < |segs| - 1 ==> segs[1..][i] == segs[i + 1];
  }

  lemma {:induction false} ResolveConcat(stack: seq<string>, a: seq<string>, b: seq<string>)
    decreases |a|
    ensures Resolve(stack, a + b) == Resolve(Resolve(stack, a), b)
  {
    if |a| == 0 {
      assert a + b == b;
    } else {
      assert (a + b)[0] == a[0];
      assert (a + b)[1..] == a[1..] + b;
      var seg := a[0];
      var next :=
        if seg == "" || seg == "." then stack
        else if seg == ".." then (if |stack| == 0 then [] else stack[..|stack| - 1])
        else stack + [seg];
      ResolveConcat(next, a[1..], b);
    }
  }

  /** Canonical segments are pushed as they are. */
  lemma {:induction false} ResolveCanonical(stack: seq<string>, segs: seq<string>)
    requires Canonical(segs)
    decreases |segs|
    ensures Resolve(stack, segs) == stack + segs
  {
    if |segs| > 0 {
      assert Canonical(segs[1..]) by {
        assert forall i :: 0 <= i < |segs| - 1 ==> segs[1..][i] == segs[i + 1];
      }
      ResolveCanonical(stack + [segs[0]], segs[1..]);
      assert stack + [segs[0]] + segs[1..] == stack + segs;
    }
  }

  /** Without `..` the stack only grows: what was there stays in front. */
  lemma {:induction false} ResolveNoParent(stack: seq<string>, segs: seq<string>)
    requires NoParentSteps(segs)
    decreases |segs|
    ensures Resolve(stack, segs) == stack + Resolve([], segs)
  {
    if |segs| > 0 {
      assert NoParentSteps(segs[1..]) by {
        assert forall i :: 0 <= i < |segs| - 1 ==> segs[1..][i] == segs[i + 1];
      }
      var seg := segs[0];
      if seg == "" || seg == "." {
        ResolveNoParent(stack, segs[1..]);
      } else {
        ResolveNoParent(stack + [seg], segs[1..]);
        ResolveNoParent([seg], segs[1..]);
        assert [] + [seg] == [seg];
      }
    }
  }

  lemma {:induction false} RenderSegsConcat(a: seq<string>, b: seq<string>)
    ensures RenderSegs(a + b) == RenderSegs(a) + RenderSegs(b)
  {
    if |a| == 0 {
      assert a + b == b;
    } else {
      RenderSegsConcat(a[1..], b);
      Seqs.ConcatHeadTail(a, b);
      var x := "/" + a[0];
      var y := RenderSegs(a[1..]);
      var z := RenderSegs(b);
      assert x + (y + z) == x + y + z;
    }
  }

  /** One more segment adds a slash and its name to the text. */
  lemma RenderChild(parent: seq<string>, n: string)
    ensures Render(parent + [n]) == RenderSegs(parent) + ("/" + n)
  {
    var one := [n];
    assert RenderSegs(one) == "/" + n by {
      assert one[1..] == [];
    }
    RenderSegsConcat(parent, one);
  }

  /** Normalising a rendered canonical path gives back its segments. */
  lemma CanonOfRender(segs: seq<string>)
    requires Canonical(segs)
    ensures Canon(Render(segs)) == segs
  {
    if |segs| == 0 {
      assert Split("/") == ["", ""];
    } else {
      SplitRendered("", segs);
      assert "" + RenderSegs(segs) == Render(segs);
      ResolveConcat([], [""], segs);
      ResolveCanonical([], segs);
    }
  }

  /** `path.normalize` is idempotent on the paths it produces. */
  lemma NormalizeIdempotent(p: string)
    ensures Normalize(Normalize(p)) == Normalize(p)
  {
    SplitSlashFree(p);
    CanonOfRender(Canon(p));
  }

  /** Normalising does not change the segments a path stands for. */
  lemma CanonNormalize(p: string)
    ensures Canon(Normalize(p)) == Canon(p)
  {
    SplitSlashFree(p);
    CanonOfRender(Canon(p));
  }

  /** Joining a canonical directory with a relative path that never steps
      up keeps the directory's segments in front. */
  lemma JoinBelow(dirSegs: seq<string>, rel: string)
    requires Canonical(dirSegs)
    requires NoParentSteps(Split(rel))
    ensures Canon(Render(dirSegs) + "/" + rel) == dirSegs + Canon(rel)
  {
    var d := Render(dirSegs);
    var rs := Split(rel);
    SplitAtSlash(d, rel);
    var lead := Split(d);
    assert Resolve([], lead) == dirSegs by {
      CanonOfRender(dirSegs);
    }
    calc {
      Canon(d + "/" + rel);
      Resolve([], lead + rs);
      { ResolveConcat([], lead, rs); }
      Resolve(Resolve([], lead), rs);
      Resolve(dirSegs, rs);
      { ResolveNoParent(dirSegs, rs); }
      dirSegs + Canon(rel);
    }
  }

  /** A rendered list starts with the rendering of any prefix of it. */
  lemma RenderExtends(a: seq<string>, b: seq<string>)
    ensures |Render(a)| <= |Render(a + b)| && Render(a + b)[..|Render(a)|] == Render(a)
  {
    RenderSegsConcat(a, b);
    if |a| == 0 {
      assert a + b == b;
      if |b| > 0 {
        assert Render(b)[0] == '/';
      }
    }
  }

  /** A segment-wise prefix renders to a prefix of the text. */
  lemma PrefixRendersPrefix(ds: seq<string>, fs: seq<string>)
    requires |ds| <= |fs| && fs[..|ds|] == ds
    ensures |Render(ds)| <= |Render(fs)| && Render(fs)[..|Render(ds)|] == Render(ds)
  {
    assert fs == ds + fs[|ds|..];
    RenderExtends(ds, fs[|ds|..]);
  }

  /** Stepping up once and into `x` replaces the last segment by `x`. */
  lemma ParentThenChild(parent: seq<string>, n: string, x: string)
    requires Canonical(parent) && Plain(n) && Plain(x)
    ensures Canonical(parent + [n])
    ensures Join(Render(parent + [n]), "../" + x) == Render(parent + [x])
  {
    var ds := parent + [n];
    assert Canonical(ds) by {
      assert forall i :: 0 <= i < |parent| ==> ds[i] == parent[i];
    }
    var d := Render(ds);
    var up := "../" + x;
    assert up == ".." + "/" + x;
    SplitAtSlash("..", x);
    SplitSegment("..");
    SplitSegment(x);
    var rs := Split(up);
    assert rs == ["..", x];
    SplitAtSlash(d, up);
    var lead := Split(d);
    assert Resolve([], lead) == ds by {
      CanonOfRender(ds);
    }
    assert ds[..|ds| - 1] == parent;
    assert rs[1..] == [x];
    calc {
      Canon(d + "/" + up);
      Resolve([], lead + rs);
      { ResolveConcat([], lead, rs); }
      Resolve(ds, rs);
      Resolve(parent, [x]);
      { ResolveCanonical(parent, [x]); }
      parent + [x];
    }
  }

  /** `path.dirname` undoes joining one plain segment onto a canonical path. */
  lemma DirnameOfChild(segs: seq<string>, x: string)
    requires Canonical(segs) && Plain(x)
    ensures Dirname(Render(segs + [x])) == Render(segs)
  {
    assert Canonical(segs + [x]) by {
      assert forall i :: 0 <= i < |segs| ==> (segs + [x])[i] == segs[i];
    }
    CanonOfRender(segs + [x]);
    assert (segs + [x])[..|segs|] == segs;
  }

  /** `path.join(dir, "d/f")` for plain `d` and `f`. */
  lemma JoinTwoSegments(segs: seq<string>, d: string, f: string)
    requires Canonical(segs) && Plain(d) && Plain(f)
    ensures Join(Render(segs), d + "/" + f) == Render(segs + [d, f])
  {
    SplitAtSlash(d, f);
    SplitSegment(d);
    SplitSegment(f);
    assert Split(d + "/" + f) == [d, f];
    JoinBelow(segs, d + "/" + f);
    ResolveCanonical([], [d, f]);
    assert [] + [d, f] == [d, f];
  }
}
