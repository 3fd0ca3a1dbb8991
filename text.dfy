/** Strings as `seq<char>` and the handful of JavaScript string operations the
    emitters use: `split` on one character, `join`, `trim`, `includes`,
    `startsWith`, ASCII case mapping and repeated concatenation. */
module Text {

  datatype Option<T> = None | Some(value: T)

  /** A character of JavaScript's WhiteSpace or LineTerminator productions:
      what the regular-expression class `\s` matches and `trim` removes. */
  predicate IsSpace(c: char) {
    || c == ' ' || c == '\t' || c == '\n' || c == '\r' || c == '\U{000B}' || c == '\U{000C}'
    || c == '\U{00A0}' || c == '\U{1680}' || ('\U{2000}' <= c <= '\U{200A}')
    || c == '\U{2028}' || c == '\U{2029}' || c == '\U{202F}' || c == '\U{205F}'
    || c == '\U{3000}' || c == '\U{FEFF}'
  }

  predicate IsAsciiUpper(c: char) { 'A' <= c <= 'Z' }

  predicate IsAsciiLower(c: char) { 'a' <= c <= 'z' }

  predicate IsAsciiDigit(c: char) { '0' <= c <= '9' }

  /** `toLowerCase` of one character, restricted to ASCII letters. */
  function LowerChar(c: char): char {
    if IsAsciiUpper(c) then (c as int + 32) as char else c
  }

  /** `toUpperCase` of one character, restricted to ASCII letters. */
  function UpperChar(c: char): char {
    if IsAsciiLower(c) then (c as int - 32) as char else c
  }

  /** `xs.slice(0, n)`: the first `n` elements, or all when there are fewer. */
  function Take<T>(xs: seq<T>, n: nat): (ys: seq<T>)
    ensures |ys| == if |xs| <= n then |xs| else n
    ensures ys == xs[..|ys|]
  {
    if |xs| <= n then xs else xs[..n]
  }

  /** `s.toLowerCase()`, restricted to ASCII letters. */
  function ToLower(s: string): (r: string)
    ensures |r| == |s|
    ensures forall i :: 0 <= i < |s| ==> r[i] == LowerChar(s[i])
  {
    seq(|s|, i requires 0 <= i < |s| => LowerChar(s[i]))
  }

  /** Lower-casing leaves no ASCII upper-case letter, so doing it twice
      changes nothing more. */
  lemma ToLowerIdempotent(s: string)
    ensures forall i :: 0 <= i < |ToLower(s)| ==> !IsAsciiUpper(ToLower(s)[i])
    ensures ToLower(ToLower(s)) == ToLower(s)
  {
    var l := ToLower(s);
    forall i | 0 <= i < |l| ensures LowerChar(l[i]) == l[i] && !IsAsciiUpper(l[i]) {
    }
  }

  /** `s.startsWith(p)`. */
  predicate StartsWith(s: string, p: string) {
    |p| <= |s| && s[..|p|] == p
  }

  /** `p` occurs in `s` starting at index `i`. */
  predicate OccursAt(s: string, p: string, i: nat) {
    i + |p| <= |s| && s[i..i + |p|] == p
  }

  /** `s.includes(p)`, as the left-to-right scan an implementation performs. */
  predicate Contains(s: string, p: string)
    decreases |s|
  {
    StartsWith(s, p) || (s != [] && Contains(s[1..], p))
  }

  /** The scan finds `p` exactly when `p` occurs somewhere in `s`. */
  lemma {:induction false} ContainsIffOccurs(s: string, p: string)
    ensures Contains(s, p) <==> exists i: nat :: OccursAt(s, p, i)
    decreases |s|
  {
    if StartsWith(s, p) {
      assert OccursAt(s, p, 0);
    } else if s == [] {
    } else {
      ContainsIffOccurs(s[1..], p);
      if i: nat :| OccursAt(s[1..], p, i) {
        assert s[1..][i..i + |p|] == s[i + 1..i + 1 + |p|];
        assert OccursAt(s, p, i + 1);
      }
      if i: nat :| OccursAt(s, p, i) {
        assert i != 0;
        assert s[1..][i - 1..i - 1 + |p|] == s[i..i + |p|];
        assert OccursAt(s[1..], p, i - 1);
      }
    }
  }

  /** `parts.join(sep)`. */
  function Join(parts: seq<string>, sep: string): string
    decreases |parts|
  {
    if |parts| == 0 then ""
    else if |parts| == 1 then parts[0]
    else parts[0] + sep + Join(parts[1..], sep)
  }

  /** Joining one more piece adds the separator and that piece at the end. */
  lemma {:induction false} JoinSnoc(parts: seq<string>, x: string, sep: string)
    requires |parts| >= 1
    ensures Join(parts + [x], sep) == Join(parts, sep) + sep + x
    decreases |parts|
  {
    var ps := parts + [x];
    assert ps[1..] == parts[1..] + [x];
    if |parts| > 1 {
      JoinSnoc(parts[1..], x, sep);
      Assoc(parts[0] + sep, Join(parts[1..], sep) + sep, x);
      Assoc(parts[0], sep, Join(parts[1..], sep) + sep + x);
      Assoc(parts[0], sep, Join(parts[1..], sep));
      Assoc(parts[0] + sep, Join(parts[1..], sep), sep);
    }
  }

  /** `s.split(c)` for a one-character separator: one piece more than there are
      separators, no piece holds the separator, and joining gives `s` back. */
  function Split(s: string, c: char): (parts: seq<string>)
    ensures |parts| == multiset(s)[c] + 1
    ensures forall k :: 0 <= k < |parts| ==> c !in parts[k]
    ensures Join(parts, [c]) == s
    decreases |s|
  {
    if s == [] then [""]
    else
      var rest := Split(s[1..], c);
      CountStep(s, c);
      assert [s[0]] + s[1..] == s;
      if s[0] == c then
        SplitStepJoin(c, rest);
        [""] + rest
      else
        SplitStepPieces(s[0], c, rest);
        JoinExtendFirst(s[0], rest, [c]);
        [[s[0]] + rest[0]] + rest[1..]
  }

  /** The first character of `s` adds one to the count of `c` when it is `c`. */
  lemma CountStep(s: string, c: char)
    requires s != []
    ensures multiset(s)[c] == multiset(s[1..])[c] + (if s[0] == c then 1 else 0)
  {
    assert s == [s[0]] + s[1..];
  }

  /** One step of the split, for pieces: when `s` starts with something
      other than `c`, it extends the first piece of `s[1..]`. */
  lemma SplitStepPieces(x: char, c: char, rest: seq<string>)
    requires x != c && rest != []
    requires forall k :: 0 <= k < |rest| ==> c !in rest[k]
    ensures var parts := [[x] + rest[0]] + rest[1..];
      forall k :: 0 <= k < |parts| ==> c !in parts[k]
  {
    var parts := [[x] + rest[0]] + rest[1..];
    forall k | 0 <= k < |parts| ensures c !in parts[k] {
      if k > 0 {
        assert parts[k] == rest[k];
      }
    }
  }

  /** One step of the split, for the joined text: a separator first adds an
      empty first piece. */
  lemma SplitStepJoin(c: char, rest: seq<string>)
    requires rest != []
    ensures Join([""] + rest, [c]) == [c] + Join(rest, [c])
  {
    assert ([""] + rest)[1..] == rest;
  }

  /** Prefixing the first piece with `x` prefixes the joined text with `x`. */
  lemma JoinExtendFirst(x: char, parts: seq<string>, sep: string)
    requires |parts| >= 1
    ensures Join([[x] + parts[0]] + parts[1..], sep) == [x] + Join(parts, sep)
  {
    var ps := [[x] + parts[0]] + parts[1..];
    assert ps[1..] == parts[1..];
    if |parts| > 1 {
      Assoc([x] + parts[0], sep, Join(parts[1..], sep));
      Assoc([x], parts[0], sep + Join(parts[1..], sep));
      Assoc(parts[0], sep, Join(parts[1..], sep));
    }
  }

  lemma {:induction false} SplitPiece(w: string, c: char)
    requires c !in w
    ensures Split(w, c) == [w]
    decreases |w|
  {
    if w != [] {
      SplitPiece(w[1..], c);
      assert [w[0]] + w[1..] == w;
    }
  }

  lemma {:induction false} SplitAfterPiece(w: string, t: string, c: char)
    requires c !in w
    ensures Split(w + [c] + t, c) == [w] + Split(t, c)
    decreases |w|
  {
    var s := w + [c] + t;
    if w == [] {
      assert s[0] == c && s[1..] == t;
    } else {
      assert s[0] == w[0] != c;
      assert s[1..] == w[1..] + [c] + t;
      SplitAfterPiece(w[1..], t, c);
      var rest := Split(s[1..], c);
      assert rest[0] == w[1..] && rest[1..] == Split(t, c);
      assert [w[0]] + w[1..] == w;
    }
  }

  /** Splitting undoes joining when no piece holds the separator. */
  lemma {:induction false} SplitJoin(parts: seq<string>, c: char)
    requires |parts| >= 1
    requires forall k :: 0 <= k < |parts| ==> c !in parts[k]
    ensures Split(Join(parts, [c]), c) == parts
    decreases |parts|
  {
    if |parts| == 1 {
      SplitPiece(parts[0], c);
    } else {
      SplitJoin(parts[1..], c);
      SplitAfterPiece(parts[0], Join(parts[1..], [c]), c);
      assert [parts[0]] + parts[1..] == parts;
    }
  }

  /** The first piece of a split is the text before the first separator. */
  lemma {:induction false} SplitHead(s: string, c: char)
    ensures var h := Split(s, c)[0]; |h| <= |s| && h == s[..|h|] && (|h| == |s| || s[|h|] == c)
    decreases |s|
  {
    if s != [] && s[0] != c {
      SplitHead(s[1..], c);
      var r := Split(s[1..], c)[0];
      assert Split(s, c)[0] == [s[0]] + r;
      PrefixCons(s, |r|);
    }
  }

  lemma PrefixCons(s: string, n: nat)
    requires n < |s|
    ensures s[..n + 1] == [s[0]] + s[1..][..n]
  {
    assert s[..n + 1] == [s[0]] + s[1..n + 1];
  }

  /** `trimStart`: drops the leading whitespace and nothing else. */
  function TrimStart(s: string): (r: string)
    ensures |r| <= |s| && r == s[|s| - |r|..]
    ensures forall i :: 0 <= i < |s| - |r| ==> IsSpace(s[i])
    ensures r == [] || !IsSpace(r[0])
    decreases |s|
  {
    if s != [] && IsSpace(s[0]) then TrimStart(s[1..]) else s
  }

  /** `trimEnd`: drops the trailing whitespace and nothing else. */
  function TrimEnd(s: string): (r: string)
    ensures |r| <= |s| && r == s[..|r|]
    ensures forall i :: |r| <= i < |s| ==> IsSpace(s[i])
    ensures r == [] || !IsSpace(r[|r| - 1])
    decreases |s|
  {
    if s != [] && IsSpace(s[|s| - 1]) then TrimEnd(s[..|s| - 1]) else s
  }

  /** `trim`: the infix of `s` left after removing whitespace at both ends. */
  function Trim(s: string): (r: string)
    ensures exists i: nat :: OccursAt(s, r, i)
    ensures r == [] || (!IsSpace(r[0]) && !IsSpace(r[|r| - 1]))
  {
    var t := TrimStart(s);
    var r := TrimEnd(t);
    PrefixOfSuffix(s, t, r);
    r
  }

  /** A prefix of a suffix of `s` occurs in `s`, and starts like the suffix. */
  lemma PrefixOfSuffix(s: string, t: string, r: string)
    requires |t| <= |s| && t == s[|s| - |t|..]
    requires |r| <= |t| && r == t[..|r|]
    ensures OccursAt(s, r, |s| - |t|)
    ensures r != [] ==> r[0] == t[0]
  {
    var a := |s| - |t|;
    assert s[a..a + |r|] == s[a..][..|r|];
  }

  /** `trim` removes only whitespace: every other character keeps its
      number of occurrences, and no character gains any. */
  lemma TrimKeeps(s: string)
    ensures forall c :: multiset(Trim(s))[c] <= multiset(s)[c]
    ensures forall c :: !IsSpace(c) ==> multiset(Trim(s))[c] == multiset(s)[c]
  {
    TrimStartKeeps(s);
    TrimEndKeeps(TrimStart(s));
  }

  lemma {:induction false} TrimStartKeeps(s: string)
    ensures forall c :: multiset(TrimStart(s))[c] <= multiset(s)[c]
    ensures forall c :: !IsSpace(c) ==> multiset(TrimStart(s))[c] == multiset(s)[c]
    decreases |s|
  {
    if s != [] && IsSpace(s[0]) {
      TrimStartKeeps(s[1..]);
      assert s == [s[0]] + s[1..];
      assert multiset(s) == multiset{s[0]} + multiset(s[1..]);
    }
  }

  lemma {:induction false} TrimEndKeeps(s: string)
    ensures forall c :: multiset(TrimEnd(s))[c] <= multiset(s)[c]
    ensures forall c :: !IsSpace(c) ==> multiset(TrimEnd(s))[c] == multiset(s)[c]
    decreases |s|
  {
    if s != [] && IsSpace(s[|s| - 1]) {
      var init := s[..|s| - 1];
      TrimEndKeeps(init);
      assert s == init + [s[|s| - 1]];
      assert multiset(s) == multiset(init) + multiset{s[|s| - 1]};
    }
  }

  /** The concatenation `f(xs[0]) + f(xs[1]) + ...`, which is what a loop
      doing `out += f(x)` for each `x` of `xs` accumulates. */
  function ConcatMap<T>(f: T -> string, xs: seq<T>): string
    decreases |xs|
  {
    if xs == [] then "" else ConcatMap(f, xs[..|xs| - 1]) + f(xs[|xs| - 1])
  }

  lemma {:induction false} ConcatMapAppend<T>(f: T -> string, xs: seq<T>, ys: seq<T>)
    ensures ConcatMap(f, xs + ys) == ConcatMap(f, xs) + ConcatMap(f, ys)
    decreases |ys|
  {
    if ys == [] {
      assert xs + ys == xs;
    } else {
      var zs, init := xs + ys, ys[..|ys| - 1];
      assert zs[..|zs| - 1] == xs + init;
      ConcatMapAppend(f, xs, init);
      calc {
        ConcatMap(f, zs);
        ConcatMap(f, xs + init) + f(ys[|ys| - 1]);
        ConcatMap(f, xs) + ConcatMap(f, init) + f(ys[|ys| - 1]);
        ConcatMap(f, xs) + ConcatMap(f, ys);
      }
    }
  }

  lemma ConcatMapPrefix<T>(f: T -> string, xs: seq<T>, i: nat)
    requires i < |xs|
    ensures ConcatMap(f, xs[..i + 1]) == ConcatMap(f, xs[..i]) + f(xs[i])
  {
    assert xs[..i + 1][..i] == xs[..i];
  }

  lemma ConcatMapCons<T>(f: T -> string, x: T, xs: seq<T>)
    ensures ConcatMap(f, [x] + xs) == f(x) + ConcatMap(f, xs)
  {
    ConcatMapAppend(f, [x], xs);
    assert [x][..0] == [];
  }

  /** `g(xs[0]) + g(xs[1]) + ...` over naturals. */
  function SumMap<T>(g: T -> nat, xs: seq<T>): nat
    decreases |xs|
  {
    if xs == [] then 0 else SumMap(g, xs[..|xs| - 1]) + g(xs[|xs| - 1])
  }

  /** Occurrences of `c` in a concatenation add up piece by piece. */
  lemma {:induction false} ConcatMapCount<T>(f: T -> string, g: T -> nat, xs: seq<T>, c: char)
    requires forall i :: 0 <= i < |xs| ==> multiset(f(xs[i]))[c] == g(xs[i])
    ensures multiset(ConcatMap(f, xs))[c] == SumMap(g, xs)
    decreases |xs|
  {
    if xs != [] {
      ConcatMapCount(f, g, xs[..|xs| - 1], c);
    }
  }

  /** One output line with its terminating newline. */
  function Terminate(line: string): string {
    line + "\n"
  }

  /** The text of a sequence of output lines, each followed by a newline. */
  function Lines(ls: seq<string>): string {
    ConcatMap(Terminate, ls)
  }

  /** The text of some lines is the lines joined by newlines, with a final
      newline, i.e., followed by an empty last piece. */
  lemma {:induction false} LinesAsJoin(ls: seq<string>)
    ensures Lines(ls) == Join(ls + [""], "\n")
    decreases |ls|
  {
    if ls != [] {
      var init, x := ls[..|ls| - 1], ls[|ls| - 1];
      LinesAsJoin(init);
      assert init + [x] == ls;
      assert ls + [""] == (init + [x]) + [""];
      if init == [] {
        assert ls + [""] == [x, ""];
        assert Join([x, ""], "\n") == x + "\n" + "";
      } else {
        JoinSnoc(init, "", "\n");
        JoinSnoc(init, x, "\n");
        JoinSnoc(init + [x], "", "\n");
        assert Join(init + [""], "\n") == Join(init, "\n") + "\n";
        Assoc(Join(init, "\n") + "\n", x, "\n");
      }
    }
  }

  /** Splitting the text of newline-free lines on newlines gives the lines
      back, followed by the empty piece after the last newline. */
  lemma SplitLines(ls: seq<string>)
    requires forall k :: 0 <= k < |ls| ==> '\n' !in ls[k]
    ensures Split(Lines(ls), '\n') == ls + [""]
  {
    LinesAsJoin(ls);
    SplitJoin(ls + [""], '\n');
  }

  /** `f(xs[0]) + f(xs[1]) + ...` for functions that produce sequences. */
  function FlatMap<T, U>(f: T -> seq<U>, xs: seq<T>): seq<U>
    decreases |xs|
  {
    if xs == [] then [] else FlatMap(f, xs[..|xs| - 1]) + f(xs[|xs| - 1])
  }

  /** A property of every element of every `f(x)` holds of every element of the flattening. */
  lemma {:induction false} FlatMapAll<T, U>(f: T -> seq<U>, p: U -> bool, xs: seq<T>)
    requires forall i, j :: 0 <= i < |xs| && 0 <= j < |f(xs[i])| ==> p(f(xs[i])[j])
    ensures forall k :: 0 <= k < |FlatMap(f, xs)| ==> p(FlatMap(f, xs)[k])
    decreases |xs|
  {
    if xs != [] {
      var init := xs[..|xs| - 1];
      FlatMapAll(f, p, init);
      var a, b := FlatMap(f, init), f(xs[|xs| - 1]);
      forall k | 0 <= k < |a + b| ensures p((a + b)[k]) {
        if k >= |a| {
          assert (a + b)[k] == f(xs[|xs| - 1])[k - |a|];
        }
      }
    }
  }

  /** Appending one newline-terminated line to a text is appending it to the line sequence. */
  lemma AppendLine(c: string, ls: seq<string>, x: string)
    ensures c + Lines(ls + [x]) == c + Lines(ls) + (x + "\n")
  {
    assert (ls + [x])[..|ls|] == ls;
  }

  /** Concatenation is associative; stated over variables so that callers need
      not unfold long literals to regroup a concatenation. */
  lemma Assoc(a: string, b: string, c: string)
    ensures a + b + c == a + (b + c)
  {
  }

  /** The text of a single line. */
  lemma OneLine(a: string)
    ensures Lines([a]) == a + "\n"
  {
    ConcatMapCons(Terminate, a, []);
    assert [a] + [] == [a];
  }

  /** Appending one terminated line to a text appends the one-line sequence's text. */
  lemma AppendOneLine(c: string, a: string)
    ensures c + (a + "\n") == c + Lines([a])
  {
    OneLine(a);
  }

  /** Appending four terminated lines one after the other appends the four-line sequence's text. */
  lemma AppendFourLines(c: string, a: string, b: string, d: string, e: string)
    ensures c + (a + "\n") + (b + "\n") + (d + "\n") + (e + "\n") == c + Lines([a, b, d, e])
  {
    var ls := [a, b, d, e];
    assert ls[..0] == [] && ls[..4] == ls;
    ConcatMapPrefix(Terminate, ls, 0);
    ConcatMapPrefix(Terminate, ls, 1);
    ConcatMapPrefix(Terminate, ls, 2);
    ConcatMapPrefix(Terminate, ls, 3);
  }

  lemma {:induction false} LinesAppend(a: seq<string>, b: seq<string>)
    ensures Lines(a + b) == Lines(a) + Lines(b)
  {
    ConcatMapAppend(Terminate, a, b);
  }

  /** Rendering each item's lines and concatenating gives the rendering of all
      the lines together, and there are as many lines as the items' counts add up to. */
  lemma {:induction false} LinesOfFlatMap<T>(f: T -> seq<string>, g: T -> string, n: T -> nat, xs: seq<T>)
    requires forall i :: 0 <= i < |xs| ==> g(xs[i]) == Lines(f(xs[i])) && |f(xs[i])| == n(xs[i])
    ensures Lines(FlatMap(f, xs)) == ConcatMap(g, xs)
    ensures |FlatMap(f, xs)| == SumMap(n, xs)
    decreases |xs|
  {
    if xs != [] {
      var init := xs[..|xs| - 1];
      LinesOfFlatMap(f, g, n, init);
      LinesAppend(FlatMap(f, init), f(xs[|xs| - 1]));
    }
  }
}
