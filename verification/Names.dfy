/** Dotted names: splitting into segments, identifiers, and what a segment-wise
    prefix looks like as a string. */
module Names {
  function Split(s: string): (r: seq<string>)
    ensures |r| > 0
  {
    if s == "" then [""]
    else if s[0] == '.' then [""] + Split(s[1..])
    else var rest := Split(s[1..]); [[s[0]] + rest[0]] + rest[1..]
  }

  /** A name with a listed name's segments as a prefix is that name, or
      continues it after a dot. */
  lemma {:induction false} SegmentPrefix(f: string, p: string)
    ensures Split(f) <= Split(p) <==> p == f || f + "." <= p
  {
    if f == "" {
      FirstSegmentEmpty(p);
      assert Split(f) <= Split(p) <==> Split(p)[0] == "";
    } else if p == "" {
      FirstSegmentEmpty(f);
      assert Split(p) == [""];
      if f[0] == '.' {
        assert |Split(f)| > 1;
      } else {
        assert Split(f)[0] != "";
      }
    } else if f[0] == p[0] {
      SegmentPrefix(f[1..], p[1..]);
      var fs, ps := Split(f[1..]), Split(p[1..]);
      assert f == [f[0]] + f[1..] && p == [p[0]] + p[1..];
      assert p == f || f + "." <= p <==> p[1..] == f[1..] || f[1..] + "." <= p[1..] by {
        assert f + "." == [f[0]] + (f[1..] + ".");
        PrefixTail(f[0], f[1..] + ".", p[1..]);
      }
      if f[0] == '.' {
        PrefixTail("", fs, ps);
      } else {
        assert Split(f) == [[f[0]] + fs[0]] + fs[1..] && Split(p) == [[f[0]] + ps[0]] + ps[1..];
        HeadPrefix(f[0], fs, ps);
      }
    } else {
      FirstSegmentEmpty(f);
      FirstSegmentEmpty(p);
      assert Split(f)[0] != Split(p)[0] by {
        if f[0] != '.' && p[0] != '.' {
          assert Split(f)[0][0] == f[0] && Split(p)[0][0] == p[0];
        }
      }
    }
  }

  lemma FirstSegmentEmpty(s: string)
    ensures Split(s)[0] == "" <==> s == "" || s[0] == '.'
  {
  }

  lemma PrefixTail<T>(x: T, a: seq<T>, b: seq<T>)
    ensures [x] + a <= [x] + b <==> a <= b
  {
    if [x] + a <= [x] + b {
      assert a == ([x] + a)[1..] && b == ([x] + b)[1..];
      assert forall i :: 0 <= i < |a| ==> a[i] == ([x] + a)[i + 1] && b[i] == ([x] + b)[i + 1];
    }
  }

  lemma HeadPrefix(c: char, a: seq<string>, b: seq<string>)
    requires |a| > 0 && |b| > 0
    ensures [[c] + a[0]] + a[1..] <= [[c] + b[0]] + b[1..] <==> a <= b
  {
    var x, y := [[c] + a[0]] + a[1..], [[c] + b[0]] + b[1..];
    assert ([c] + a[0])[1..] == a[0] && ([c] + b[0])[1..] == b[0];
    if x <= y {
      assert forall i :: 0 < i < |a| ==> x[i] == a[i] && y[i] == b[i];
      assert x[0] == y[0];
    }
    if a <= b {
      assert a[0] == b[0];
      assert forall i :: 0 < i < |a| ==> x[i] == a[i] && y[i] == b[i];
    }
  }

  // ---- identifiers

  predicate Letter(c: char) {
    'A' <= c <= 'Z' || 'a' <= c <= 'z' || c == '_'
  }

  predicate LetterOrDigit(c: char) {
    Letter(c) || '0' <= c <= '9'
  }

  predicate Identifier(s: string) {
    s != "" && Letter(s[0]) && forall i :: 0 < i < |s| ==> LetterOrDigit(s[i])
  }

  predicate DottedName(s: string) {
    forall segment :: segment in Split(s) ==> Identifier(segment)
  }

  lemma {:induction false} SplitPlain(a: string)
    requires '.' !in a
    ensures Split(a) == [a]
  {
    if a != "" {
      SplitPlain(a[1..]);
      assert a == [a[0]] + a[1..];
    }
  }

  lemma {:induction false} SplitDotted(a: string, b: string)
    requires '.' !in a
    ensures Split(a + "." + b) == [a] + Split(b)
  {
    var s := a + "." + b;
    if a == "" {
      assert s == "." + b && s[1..] == b;
    } else {
      assert s[1..] == a[1..] + "." + b;
      SplitDotted(a[1..], b);
      assert a == [a[0]] + a[1..];
    }
  }

  /** The first segment ends at the end of the name or at its first dot. */
  lemma {:induction false} SplitFirst(s: string) returns (k: nat)
    ensures k <= |s| && '.' !in s[..k] && Split(s)[0] == s[..k]
    ensures k == |s| || s[k] == '.'
    ensures Split(s) == if k == |s| then [s] else [s[..k]] + Split(s[k + 1..])
  {
    k := 0;
    while k < |s| && s[k] != '.'
      invariant k <= |s| && '.' !in s[..k]
    {
      assert s[..k + 1] == s[..k] + [s[k]];
      k := k + 1;
    }
    if k == |s| {
      assert s[..k] == s;
      SplitPlain(s);
    } else {
      assert s == s[..k] + "." + s[k + 1..];
      SplitDotted(s[..k], s[k + 1..]);
    }
  }
}
