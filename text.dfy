/** The JavaScript string built-ins the plugin relies on: `trim`, `split('\n')`,
    `join`, `slice`, ASCII case folding of a `/i` regular expression and the
    ASCII word class `\w`. */
module Text {

  datatype Option<T> = None | Some(value: T)

  function Min(a: int, b: int): int { if a <= b then a else b }

  /** The white space and line terminators that `String.prototype.trim` removes. */
  predicate IsJsSpace(c: char) {
    c == ' ' || c == '\t' || c == '\n' || c == '\r' || c == '\U{000B}' || c == '\U{000C}'
    || c == '\U{00A0}' || c == '\U{1680}' || ('\U{2000}' <= c <= '\U{200A}')
    || c == '\U{2028}' || c == '\U{2029}' || c == '\U{202F}' || c == '\U{205F}'
    || c == '\U{3000}' || c == '\U{FEFF}'
  }

  /** `\w` of a regular expression without the `u` flag: ASCII letters, digits and `_`. */
  predicate IsWordChar(c: char) {
    ('A' <= c <= 'Z') || ('a' <= c <= 'z') || ('0' <= c <= '9') || c == '_'
  }

  /** The canonical form a `/i` regular expression without the `u` flag compares
      when the pattern is ASCII: only ASCII letters fold. */
  function Upper(c: char): (u: char)
    ensures ('a' <= c <= 'z') ==> 'A' <= u <= 'Z'
    ensures !('a' <= c <= 'z') ==> u == c
  {
    if 'a' <= c <= 'z' then (c as int - 32) as char else c
  }

  /** `toLowerCase` restricted to ASCII, which is all that `\w` can match. */
  function Lower(c: char): (l: char)
    ensures ('A' <= c <= 'Z') ==> 'a' <= l <= 'z'
    ensures !('A' <= c <= 'Z') ==> l == c
  {
    if 'A' <= c <= 'Z' then (c as int + 32) as char else c
  }

  function LowerString(s: string): (r: string)
    ensures |r| == |s| && forall k :: 0 <= k < |s| ==> r[k] == Lower(s[k])
  {
    if s == [] then [] else [Lower(s[0])] + LowerString(s[1..])
  }

  /** `t` starts with `p` when both are compared case-insensitively. */
  predicate StartsWithFold(t: string, p: string) {
    |p| <= |t| && forall k :: 0 <= k < |p| ==> Upper(t[k]) == Upper(p[k])
  }

  predicate AllSpace(s: string) {
    forall k :: 0 <= k < |s| ==> IsJsSpace(s[k])
  }

  /** `s` without its leading white space. */
  function TrimStart(s: string): (r: string)
    ensures |r| <= |s|
    ensures r != [] ==> !IsJsSpace(r[0])
  {
    if s != [] && IsJsSpace(s[0]) then TrimStart(s[1..]) else s
  }

  /** `s` without its trailing white space. */
  function TrimEnd(s: string): (r: string)
    ensures |r| <= |s|
    ensures r != [] ==> !IsJsSpace(r[|r| - 1])
  {
    if s != [] && IsJsSpace(s[|s| - 1]) then TrimEnd(s[..|s| - 1]) else s
  }

  /** `String.prototype.trim`: `s` without the white space at both ends
      (`TrimSlice` and `TrimUnique` pin it down completely). */
  function Trim(s: string): (r: string)
    ensures |r| <= |s|
    ensures r != [] ==> !IsJsSpace(r[|r| - 1])
  {
    TrimEnd(TrimStart(s))
  }

  lemma {:induction false} TrimStartSpec(s: string)
    ensures var r := TrimStart(s);
            r == s[|s| - |r|..] && AllSpace(s[..|s| - |r|]) && (r != [] ==> !IsJsSpace(r[0]))
  {
    if s != [] && IsJsSpace(s[0]) {
      TrimStartSpec(s[1..]);
      var r := TrimStart(s[1..]);
      assert s[..|s| - |r|] == [s[0]] + s[1..][..|s| - 1 - |r|];
    }
  }

  lemma {:induction false} TrimEndSpec(s: string)
    ensures var r := TrimEnd(s);
            r == s[..|r|] && AllSpace(s[|r|..]) && (r != [] ==> !IsJsSpace(r[|r| - 1]))
  {
    if s != [] && IsJsSpace(s[|s| - 1]) {
      var init := s[..|s| - 1];
      TrimEndSpec(init);
      var r := TrimEnd(init);
      assert s[|r|..] == init[|r|..] + [s[|s| - 1]];
    }
  }

  /** The trimmed text is a slice of `s` with only white space around it, and
      it neither starts nor ends with white space. */
  lemma TrimSlice(s: string) returns (i: nat)
    ensures i + |Trim(s)| <= |s| && Trim(s) == s[i..i + |Trim(s)|]
    ensures AllSpace(s[..i]) && AllSpace(s[i + |Trim(s)|..])
    ensures Trim(s) != [] ==> !IsJsSpace(Trim(s)[0]) && !IsJsSpace(Trim(s)[|Trim(s)| - 1])
  {
    var t := TrimStart(s);
    TrimStartSpec(s);
    TrimEndSpec(t);
    var r := TrimEnd(t);
    i := |s| - |t|;
    assert s[i + |r|..] == t[|r|..];
    if r != [] {
      assert r[0] == t[0];
    }
  }

  lemma {:induction false} TrimStartSkips(pre: string, x: string)
    requires AllSpace(pre)
    ensures TrimStart(pre + x) == TrimStart(x)
  {
    if pre != [] {
      assert (pre + x)[0] == pre[0];
      assert (pre + x)[1..] == pre[1..] + x;
      TrimStartSkips(pre[1..], x);
    } else {
      assert pre + x == x;
    }
  }

  lemma {:induction false} TrimEndSkips(x: string, post: string)
    requires AllSpace(post)
    ensures TrimEnd(x + post) == TrimEnd(x)
  {
    if post != [] {
      var init := post[..|post| - 1];
      assert (x + post)[|x + post| - 1] == post[|post| - 1];
      assert (x + post)[..|x + post| - 1] == x + init;
      TrimEndSkips(x, init);
    } else {
      assert x + post == x;
    }
  }

  /** `Trim` is determined by that description: whatever lies between two runs
      of white space, and neither starts nor ends with white space, is the
      trimmed text. */
  lemma TrimUnique(pre: string, r: string, post: string)
    requires AllSpace(pre) && AllSpace(post)
    requires r != [] ==> !IsJsSpace(r[0]) && !IsJsSpace(r[|r| - 1])
    ensures Trim(pre + r + post) == r
  {
    assert pre + r + post == pre + (r + post);
    TrimStartSkips(pre, r + post);
    if r == [] {
      assert r + post == post;
      TrimStartSkips(post, []);
      assert post + [] == post;
      assert TrimStart(post) == TrimStart([]) == [];
      assert TrimStart(pre + r + post) == [];
      assert Trim(pre + r + post) == TrimEnd([]) == [];
    } else {
      assert (r + post)[0] == r[0];
      assert TrimStart(r + post) == r + post;
      TrimEndSkips(r, post);
      assert TrimEnd(r) == r;
    }
  }

  /** `s.split('\n')`: never empty, no element holds a line feed. */
  function Split(s: string): (lines: seq<string>)
    ensures |lines| >= 1
    ensures forall i :: 0 <= i < |lines| ==> '\n' !in lines[i]
  {
    if s == [] then [""]
    else
      var rest := Split(s[1..]);
      if s[0] == '\n' then [""] + rest
      else [[s[0]] + rest[0]] + rest[1..]
  }

  /** `lines.join(sep)`: the first line comes first, and every further line
      adds at least one separator. */
  function Join(lines: seq<string>, sep: string): (r: string)
    ensures lines == [] ==> r == []
    ensures lines != [] ==> |lines[0]| <= |r| && r[..|lines[0]|] == lines[0]
    ensures lines != [] ==> |r| >= (|lines| - 1) * |sep|
  {
    if |lines| == 0 then ""
    else if |lines| == 1 then lines[0]
    else lines[0] + sep + Join(lines[1..], sep)
  }

  /** Joining the pieces of a split gives back the text. */
  lemma {:induction false} JoinSplit(s: string)
    ensures Join(Split(s), "\n") == s
  {
    if s != [] {
      var rest := Split(s[1..]);
      JoinSplit(s[1..]);
      if s[0] == '\n' {
        assert Split(s) == [""] + rest;
        assert ([""] + rest)[1..] == rest;
      } else {
        var lines := Split(s);
        assert lines == [[s[0]] + rest[0]] + rest[1..];
        assert lines[1..] == rest[1..];
        if |rest| > 1 {
          assert Join(rest, "\n") == rest[0] + "\n" + Join(rest[1..], "\n");
        }
        assert s == [s[0]] + s[1..];
      }
    }
  }

  lemma {:induction false} SplitPrefix(w: string, s: string)
    requires '\n' !in w
    ensures Split(w + s) == [w + Split(s)[0]] + Split(s)[1..]
  {
    var tail := Split(s);
    if w == [] {
      assert w + s == s;
      assert w + tail[0] == tail[0];
      assert tail == [tail[0]] + tail[1..];
    } else {
      assert (w + s)[1..] == w[1..] + s;
      assert w[0] in w;
      SplitPrefix(w[1..], s);
      var rest := Split(w[1..] + s);
      assert rest[0] == w[1..] + tail[0];
      assert rest[1..] == tail[1..];
      assert Split(w + s) == [[w[0]] + rest[0]] + rest[1..];
      assert [w[0]] + (w[1..] + tail[0]) == w + tail[0];
    }
  }

  /** Splitting a join of line-feed-free lines gives back the lines. */
  lemma {:induction false} SplitJoin(lines: seq<string>)
    requires |lines| >= 1
    requires forall i :: 0 <= i < |lines| ==> '\n' !in lines[i]
    ensures Split(Join(lines, "\n")) == lines
  {
    if |lines| == 1 {
      SplitPrefix(lines[0], []);
      assert lines[0] + [] == lines[0];
      assert Split([]) == [""];
      assert lines[0] + "" == lines[0];
      assert lines == [lines[0]];
    } else {
      var tail := Join(lines[1..], "\n");
      SplitJoin(lines[1..]);
      assert Join(lines, "\n") == lines[0] + ("\n" + tail);
      SplitPrefix(lines[0], "\n" + tail);
      assert ("\n" + tail)[1..] == tail;
      assert Split("\n" + tail) == [""] + Split(tail);
      var r := Split(lines[0] + ("\n" + tail));
      assert r == [lines[0] + ""] + lines[1..];
      assert lines[0] + "" == lines[0];
      assert lines == [lines[0]] + lines[1..];
    }
  }

  /** `s.slice(0, n)`. */
  function Take(s: string, n: nat): (r: string)
    ensures |r| == Min(n, |s|) && r == s[..|r|]
  {
    if |s| <= n then s else s[..n]
  }

  /** `s.endsWith(suffix)`: the last `|suffix|` characters of `s` are those of `suffix`. */
  predicate EndsWith(s: string, suffix: string): (b: bool)
    ensures b <==> |suffix| <= |s| && forall k :: 0 <= k < |suffix| ==> s[|s| - |suffix| + k] == suffix[k]
  {
    |suffix| <= |s| && s[|s| - |suffix|..] == suffix
  }

  /** Two texts that differ only in the case of ASCII letters. */
  predicate SameFold(t: string, u: string) {
    |t| == |u| && forall k :: 0 <= k < |t| ==> Upper(t[k]) == Upper(u[k])
  }

  lemma SameFoldSlice(t: string, u: string, i: nat, j: nat)
    requires SameFold(t, u) && i <= j <= |t|
    ensures SameFold(t[i..j], u[i..j])
  {
    forall k | 0 <= k < j - i ensures Upper(t[i..j][k]) == Upper(u[i..j][k]) {
      assert t[i..j][k] == t[i + k] && u[i..j][k] == u[i + k];
    }
  }

  lemma FoldChar(a: char, b: char)
    requires Upper(a) == Upper(b)
    ensures Lower(a) == Lower(b)
  {
  }

  lemma SameFoldLower(t: string, u: string)
    requires SameFold(t, u)
    ensures LowerString(t) == LowerString(u)
  {
    forall k | 0 <= k < |t| ensures Lower(t[k]) == Lower(u[k]) {
      FoldChar(t[k], u[k]);
    }
  }

  lemma SameFoldStarts(t: string, u: string, p: string)
    requires SameFold(t, u)
    ensures StartsWithFold(t, p) <==> StartsWithFold(u, p)
  {
    if |p| <= |t| {
      assert forall k :: 0 <= k < |p| ==> Upper(t[k]) == Upper(u[k]);
    }
  }

  lemma FoldKeepsClass(a: char, b: char)
    requires Upper(a) == Upper(b)
    ensures IsJsSpace(a) <==> IsJsSpace(b)
    ensures IsWordChar(a) <==> IsWordChar(b)
  {
  }

  lemma {:induction false} TrimStartFold(t: string, u: string)
    requires SameFold(t, u)
    ensures SameFold(TrimStart(t), TrimStart(u))
  {
    if t != [] {
      FoldKeepsClass(t[0], u[0]);
      if IsJsSpace(t[0]) {
        SameFoldSlice(t, u, 1, |t|);
        TrimStartFold(t[1..], u[1..]);
      }
    }
  }

  lemma {:induction false} TrimEndFold(t: string, u: string)
    requires SameFold(t, u)
    ensures SameFold(TrimEnd(t), TrimEnd(u))
  {
    if t != [] {
      FoldKeepsClass(t[|t| - 1], u[|u| - 1]);
      if IsJsSpace(t[|t| - 1]) {
        SameFoldSlice(t, u, 0, |t| - 1);
        assert t[0..|t| - 1] == t[..|t| - 1] && u[0..|u| - 1] == u[..|u| - 1];
        TrimEndFold(t[..|t| - 1], u[..|u| - 1]);
      }
    }
  }

  /** Trimming texts that differ only in ASCII case gives texts that differ
      only in ASCII case: case never decides what is white space. */
  lemma TrimFold(t: string, u: string)
    requires SameFold(t, u)
    ensures SameFold(Trim(t), Trim(u))
  {
    TrimStartFold(t, u);
    TrimEndFold(TrimStart(t), TrimStart(u));
  }

  lemma AllSpaceConcat(x: string, y: string)
    requires AllSpace(x) && AllSpace(y)
    ensures AllSpace(x + y)
  {
    forall k | 0 <= k < |x + y| ensures IsJsSpace((x + y)[k]) {
      if k >= |x| { assert (x + y)[k] == y[k - |x|]; }
    }
  }

  /** Cutting `s` into three pieces and padding it: the padding joins the
      outer pieces. */
  lemma Regroup(pre: string, s: string, post: string, i: nat, j: nat)
    requires i <= j <= |s|
    ensures pre + s + post == (pre + s[..i]) + s[i..j] + (s[j..] + post)
  {
    assert s == s[..i] + s[i..j] + s[j..];
  }

  /** White space added around a text does not change its trim. */
  lemma TrimPadded(pre: string, s: string, post: string)
    requires AllSpace(pre) && AllSpace(post)
    ensures Trim(pre + s + post) == Trim(s)
  {
    var i := TrimSlice(s);
    var r := Trim(s);
    Regroup(pre, s, post, i, i + |r|);
    AllSpaceConcat(pre, s[..i]);
    AllSpaceConcat(s[i + |r|..], post);
    TrimUnique(pre + s[..i], r, s[i + |r|..] + post);
  }
}
