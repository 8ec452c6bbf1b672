/** Splitting paths at slashes and joining them again. */
module Segments {

  /** s.split("/"): never empty; every slash starts a new segment. */
  function Split(s: string): (r: seq<string>)
    ensures |r| >= 1
  {
    if s == "" then [""]
    else
      var more := Split(s[1..]);
      if s[0] == '/' then [""] + more else [[s[0]] + more[0]] + more[1..]
  }

  /** "/".join(segments) */
  function Join(segments: seq<string>): string {
    if segments == [] then ""
    else if |segments| == 1 then segments[0]
    else segments[0] + "/" + Join(segments[1..])
  }

  predicate SlashFree(segments: seq<string>) {
    forall i :: 0 <= i < |segments| ==> '/' !in segments[i]
  }

  lemma {:induction false} JoinOfSplit(s: string)
    ensures Join(Split(s)) == s
    ensures SlashFree(Split(s))
  {
    if s != "" {
      JoinOfSplit(s[1..]);
      var more := Split(s[1..]);
      if s[0] == '/' {
        assert Split(s)[1..] == more;
        assert s == "" + "/" + s[1..];
      } else {
        assert Split(s)[1..] == more[1..];
        assert s == [s[0]] + s[1..];
        if |more| > 1 {
          assert [s[0]] + (more[0] + "/" + Join(more[1..])) == ([s[0]] + more[0]) + "/" + Join(more[1..]);
        }
      }
    }
  }

  lemma {:induction false} SplitOfConcat(a: string, b: string)
    ensures Split(a + "/" + b) == Split(a) + Split(b)
  {
    var whole := a + "/" + b;
    if a == "" {
      assert whole[1..] == b;
    } else {
      assert whole[1..] == a[1..] + "/" + b;
      SplitOfConcat(a[1..], b);
    }
  }

  lemma {:induction false} SplitOfPlain(s: string)
    requires '/' !in s
    ensures Split(s) == [s]
  {
    if s != "" {
      SplitOfPlain(s[1..]);
      assert s == [s[0]] + s[1..];
    }
  }

  lemma {:induction false} SplitOfJoin(segments: seq<string>)
    requires segments != [] && SlashFree(segments)
    ensures Split(Join(segments)) == segments
  {
    SplitOfPlain(segments[0]);
    if |segments| > 1 {
      SplitOfJoin(segments[1..]);
      SplitOfConcat(segments[0], Join(segments[1..]));
    }
  }

  lemma {:induction false} JoinOfConcat(xs: seq<string>, ys: seq<string>)
    requires xs != [] && ys != []
    ensures Join(xs + ys) == Join(xs) + "/" + Join(ys)
  {
    if |xs| == 1 {
      assert (xs + ys)[1..] == ys;
    } else {
      JoinOfConcat(xs[1..], ys);
      assert (xs + ys)[1..] == xs[1..] + ys;
      assert xs[0] + "/" + (Join(xs[1..]) + "/" + Join(ys)) == (xs[0] + "/" + Join(xs[1..])) + "/" + Join(ys);
    }
  }

  /** A path continues below x exactly when x's segments are a proper prefix of its own. */
  lemma BelowIsSegmentPrefix(path: string, x: string)
    ensures x + "/" <= path <==> Split(x) < Split(path)
  {
    JoinOfSplit(path);
    JoinOfSplit(x);
    if x + "/" <= path {
      var tail := path[|x| + 1..];
      assert path == x + "/" + tail;
      SplitOfConcat(x, tail);
    }
    if Split(x) < Split(path) {
      var rest := Split(path)[|Split(x)|..];
      assert Split(path) == Split(x) + rest;
      JoinOfConcat(Split(x), rest);
    }
  }
}
