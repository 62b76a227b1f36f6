/** The Python built-in behaviour the corpus scripts depend on: exceptions as
    error values, and the `str` and list operations they call (`split`,
    `join`, `strip`, `startswith`, `endswith`, `replace`, negative and
    stepped slices, `zip`). Each is written to agree with CPython on every
    input, including the short and empty ones. */
module Builtins {

  /** The exceptions the scripts can raise on malformed input. */
  datatype Error = IndexError | ValueError | AssertionError

  datatype Result<T> = Ok(value: T) | Err(error: Error)

  datatype Option<T> = None | Some(value: T)

  /** `c.isspace()`: the characters CPython treats as whitespace in
      `str.split()` and `str.strip()`. */
  predicate IsSpace(c: char) {
    c == ' ' || ('\t' <= c <= '\r') || ('\U{1c}' <= c <= '\U{1f}')
    || c == '\U{85}' || c == '\U{a0}' || c == '\U{1680}'
    || ('\U{2000}' <= c <= '\U{200a}') || c == '\U{2028}' || c == '\U{2029}'
    || c == '\U{202f}' || c == '\U{205f}' || c == '\U{3000}'
  }

  /** `s.startswith(p)` */
  predicate StartsWith(s: string, p: string) {
    |p| <= |s| && s[..|p|] == p
  }

  /** `s.endswith(p)` */
  predicate EndsWith(s: string, p: string) {
    |p| <= |s| && s[|s| - |p|..] == p
  }

  /** The slice `s[:-n]` for `n >= 1`: everything but the last `n` elements,
      and the empty sequence when there are no more than `n`. */
  function DropLast<T>(s: seq<T>, n: nat): (r: seq<T>)
    ensures |r| == if |s| >= n then |s| - n else 0
    ensures r <= s
  {
    if |s| >= n then s[..|s| - n] else []
  }

  /** Puts `prefix` in front of a successful result; an error stays. */
  function Prepend<T>(prefix: seq<T>, r: Result<seq<T>>): Result<seq<T>> {
    match r
    case Ok(v) => Ok(prefix + v)
    case Err(e) => Err(e)
  }

  lemma PrependNil<T>(r: Result<seq<T>>)
    ensures Prepend([], r) == r
  {
    if r.Ok? { assert [] + r.value == r.value; }
  }

  lemma PrependPrepend<T>(a: seq<T>, b: seq<T>, r: Result<seq<T>>)
    ensures Prepend(a, Prepend(b, r)) == Prepend(a + b, r)
  {
    if r.Ok? { assert a + (b + r.value) == (a + b) + r.value; }
  }

  /** Runs a list of steps that each succeed or raise: the values of all of
      them, or the error of the first that raises. */
  function AllOk<T>(outcomes: seq<Result<T>>): Result<seq<T>>
    decreases |outcomes|
  {
    if |outcomes| == 0 then Ok([])
    else match outcomes[0]
      case Err(e) => Err(e)
      case Ok(v) => Prepend([v], AllOk(outcomes[1..]))
  }

  /** One step of `AllOk` from position `i`. */
  lemma AllOkStep<T>(outcomes: seq<Result<T>>, i: nat)
    requires i < |outcomes|
    ensures AllOk(outcomes[i..]) ==
      match outcomes[i]
      case Err(e) => Err(e)
      case Ok(v) => Prepend([v], AllOk(outcomes[i + 1..]))
  {
    assert outcomes[i..][1..] == outcomes[i + 1..];
  }

  /** The run succeeds exactly when every step does, with their values in
      order; otherwise it fails with the error of the first step that
      raises. */
  lemma {:induction false} AllOkSpec<T>(outcomes: seq<Result<T>>)
    ensures var r := AllOk(outcomes);
      && (r.Ok? <==> forall i :: 0 <= i < |outcomes| ==> outcomes[i].Ok?)
      && (r.Ok? ==>
            && |r.value| == |outcomes|
            && forall i :: 0 <= i < |outcomes| ==> outcomes[i] == Ok(r.value[i]))
      && (r.Err? ==>
            exists i :: 0 <= i < |outcomes| && outcomes[i] == Err(r.error) &&
              forall h :: 0 <= h < i ==> outcomes[h].Ok?)
    decreases |outcomes|
  {
    if |outcomes| > 0 {
      AllOkSpec(outcomes[1..]);
      assert forall i :: 1 <= i < |outcomes| ==> outcomes[i] == outcomes[1..][i - 1];
      var r := AllOk(outcomes);
      if outcomes[0].Ok? {
        var rest := AllOk(outcomes[1..]);
        if rest.Err? {
          var i :| 0 <= i < |outcomes[1..]| && outcomes[1..][i] == Err(rest.error) &&
            forall h :: 0 <= h < i ==> outcomes[1..][h].Ok?;
          assert outcomes[i + 1] == Err(r.error);
        }
      }
    }
  }

  /** Two strings that end the same string: the shorter ends the longer. */
  lemma EndsWithBoth(s: string, a: string, b: string)
    requires EndsWith(s, a) && EndsWith(s, b) && |a| <= |b|
    ensures EndsWith(b, a)
  {
    assert b[|b| - |a|..] == s[|s| - |a|..];
  }

  /** The concatenation of a list of strings, `"".join(parts)`. */
  function Concat(parts: seq<string>): string {
    if parts == [] then [] else parts[0] + Concat(parts[1..])
  }

  /** The last part can be split off the concatenation. */
  lemma {:induction false} ConcatSnoc(parts: seq<string>)
    requires |parts| > 0
    ensures Concat(parts) == Concat(parts[..|parts| - 1]) + parts[|parts| - 1]
    decreases |parts|
  {
    if |parts| > 1 {
      ConcatSnoc(parts[1..]);
      assert parts[1..][..|parts| - 2] == parts[..|parts| - 1][1..];
    }
  }

  /** `sep.join(parts)` */
  function Join(sep: string, parts: seq<string>): string {
    if |parts| == 0 then []
    else if |parts| == 1 then parts[0]
    else parts[0] + sep + Join(sep, parts[1..])
  }

  /** `s.split(sep)` for a one-character separator: empty fields are kept,
      so the result always has one more field than `s` has separators. */
  function SplitOn(s: string, sep: char): (r: seq<string>)
    ensures |r| >= 1
    ensures forall f :: f in r ==> sep !in f
    decreases |s|
  {
    if |s| == 0 then [[]]
    else if s[0] == sep then [[]] + SplitOn(s[1..], sep)
    else
      var rest := SplitOn(s[1..], sep);
      [[s[0]] + rest[0]] + rest[1..]
  }

  /** Splitting and joining back with the same separator gives the input. */
  lemma {:induction false} JoinSplitOn(s: string, sep: char)
    ensures Join([sep], SplitOn(s, sep)) == s
    decreases |s|
  {
    if |s| == 0 {
    } else if s[0] == sep {
      JoinSplitOn(s[1..], sep);
      assert s == [sep] + s[1..];
    } else {
      JoinSplitOn(s[1..], sep);
      var rest := SplitOn(s[1..], sep);
      if |rest| == 1 {
        assert s == [s[0]] + rest[0];
      } else {
        assert Join([sep], rest) == rest[0] + [sep] + Join([sep], rest[1..]);
        assert s == [s[0]] + s[1..];
      }
    }
  }

  /** Joining fields that hold no separator and splitting again gives the
      fields back. */
  lemma {:induction false} SplitOnJoin(parts: seq<string>, sep: char)
    requires |parts| >= 1
    requires forall f :: f in parts ==> sep !in f
    ensures SplitOn(Join([sep], parts), sep) == parts
    decreases |parts|, |parts[0]|
  {
    var p := parts[0];
    if |p| == 0 {
      if |parts| == 1 {
      } else {
        assert Join([sep], parts) == [sep] + Join([sep], parts[1..]);
        SplitOnJoin(parts[1..], sep);
        assert parts == [[]] + parts[1..];
      }
    } else {
      var tail := [p[1..]] + parts[1..];
      assert forall f :: f in tail ==> sep !in f by {
        forall f | f in tail ensures sep !in f {
          if f == p[1..] { assert forall c :: c in f ==> c in p; }
        }
      }
      SplitOnJoin(tail, sep);
      assert Join([sep], parts) == [p[0]] + Join([sep], tail) by {
        if |parts| == 1 {
          assert p == [p[0]] + p[1..];
        } else {
          assert p == [p[0]] + p[1..];
          assert Join([sep], tail) == p[1..] + [sep] + Join([sep], parts[1..]);
        }
      }
      var s := Join([sep], parts);
      assert p[0] in parts[0];
      assert s[0] == p[0] && s[0] != sep;
      assert s[1..] == Join([sep], tail);
      assert [p[0]] + p[1..] == p;
    }
  }

  /** `s.split()`: the maximal runs of non-whitespace characters, in order;
      leading, trailing and repeated whitespace produce no empty words. */
  function Words(s: string): (r: seq<string>)
    ensures forall w :: w in r ==> |w| > 0 && forall c :: c in w ==> !IsSpace(c)
    decreases |s|
  {
    if |s| == 0 then []
    else if IsSpace(s[0]) then Words(s[1..])
    else
      var n := WordEnd(s, 1);
      [s[..n]] + Words(s[n..])
  }

  /** The index of the first whitespace character of `s` at or after `i`,
      or `|s|` when there is none. */
  function WordEnd(s: string, i: nat): (n: nat)
    requires i <= |s|
    ensures i <= n <= |s|
    ensures forall k :: i <= k < n ==> !IsSpace(s[k])
    ensures n < |s| ==> IsSpace(s[n])
    decreases |s| - i
  {
    if i == |s| || IsSpace(s[i]) then i else WordEnd(s, i + 1)
  }

  /** `s.rstrip()` */
  function RStrip(s: string): (r: string)
    ensures r <= s
    ensures |r| > 0 ==> !IsSpace(r[|r| - 1])
    ensures forall k :: |r| <= k < |s| ==> IsSpace(s[k])
  {
    if |s| > 0 && IsSpace(s[|s| - 1]) then RStrip(s[..|s| - 1]) else s
  }

  /** `s.lstrip()` */
  function LStrip(s: string): (r: string)
    ensures |r| <= |s| && r == s[|s| - |r|..]
    ensures |r| > 0 ==> !IsSpace(r[0])
    ensures forall k :: 0 <= k < |s| - |r| ==> IsSpace(s[k])
  {
    if |s| > 0 && IsSpace(s[0]) then LStrip(s[1..]) else s
  }

  /** `s.strip()` */
  function Strip(s: string): string {
    LStrip(RStrip(s))
  }

  /** A part that is not empty and neither starts nor ends with
      whitespace. */
  predicate Trimmed(t: string) {
    |t| > 0 && !IsSpace(t[0]) && !IsSpace(t[|t| - 1])
  }

  /** Parts each followed by a space are the parts joined by spaces, plus
      one trailing space. */
  lemma {:induction false} ConcatSpaced(parts: seq<string>)
    requires |parts| > 0
    ensures Concat(seq(|parts|, k requires 0 <= k < |parts| => parts[k] + " ")) == Join(" ", parts) + " "
    decreases |parts|
  {
    var spaced := seq(|parts|, k requires 0 <= k < |parts| => parts[k] + " ");
    if |parts| > 1 {
      ConcatSpaced(parts[1..]);
      assert spaced[1..] == seq(|parts[1..]|, k requires 0 <= k < |parts[1..]| => parts[1..][k] + " ");
    } else {
      assert spaced[1..] == [];
    }
  }

  /** Joining trimmed parts with spaces gives a trimmed string. */
  lemma {:induction false} JoinTrimmed(parts: seq<string>)
    requires |parts| > 0
    requires forall t :: t in parts ==> Trimmed(t)
    ensures Trimmed(Join(" ", parts))
    ensures Join(" ", parts)[0] == parts[0][0]
    decreases |parts|
  {
    assert parts[0] in parts;
    if |parts| > 1 {
      assert forall t :: t in parts[1..] ==> t in parts;
      JoinTrimmed(parts[1..]);
    }
  }

  /** Stripping a trimmed string followed by a space gives it back. */
  lemma StripSpaced(x: string)
    requires Trimmed(x)
    ensures Strip(x + " ") == x
  {
    assert (x + " ")[..|x|] == x;
    assert RStrip(x + " ") == RStrip(x);
  }

  /** `s[::2]`: the elements at even positions. */
  function Evens<T>(s: seq<T>): (r: seq<T>)
    ensures |r| == (|s| + 1) / 2
    ensures forall k :: 0 <= k < |r| ==> r[k] == s[2 * k]
    decreases |s|
  {
    if |s| == 0 then [] else if |s| == 1 then [s[0]] else [s[0]] + Evens(s[2..])
  }

  /** `s[1::2]`: the elements at odd positions. */
  function Odds<T>(s: seq<T>): (r: seq<T>)
    ensures |r| == |s| / 2
    ensures forall k :: 0 <= k < |r| ==> r[k] == s[2 * k + 1]
  {
    if |s| == 0 then [] else Evens(s[1..])
  }

  /** `list(zip(a, b))`, which stops at the shorter list. */
  function Zip<A, B>(a: seq<A>, b: seq<B>): (r: seq<(A, B)>)
    ensures |r| == if |a| <= |b| then |a| else |b|
    ensures forall k :: 0 <= k < |r| ==> r[k] == (a[k], b[k])
  {
    if |a| == 0 || |b| == 0 then [] else [(a[0], b[0])] + Zip(a[1..], b[1..])
  }

  /** `s.replace(pat, "")`: every non-overlapping occurrence of `pat`,
      scanning from the left, is removed. */
  function RemoveAll(s: string, pat: string): string
    requires |pat| > 0
    decreases |s|
  {
    if |s| < |pat| then s
    else if s[..|pat|] == pat then RemoveAll(s[|pat|..], pat)
    else [s[0]] + RemoveAll(s[1..], pat)
  }

  /** Removing an extension that starts with a character the stem lacks
      leaves exactly the stem. */
  lemma {:induction false} RemoveAllSuffix(stem: string, ext: string)
    requires |ext| > 0 && ext[0] !in stem
    ensures RemoveAll(stem + ext, ext) == stem
    decreases |stem|
  {
    if |stem| == 0 {
      assert (stem + ext)[..|ext|] == ext;
      assert (stem + ext)[|ext|..] == [];
    } else {
      var s := stem + ext;
      assert s[0] == stem[0] != ext[0];
      if |s| >= |ext| { assert s[..|ext|][0] == s[0]; }
      assert s[1..] == stem[1..] + ext;
      RemoveAllSuffix(stem[1..], ext);
      assert stem == [stem[0]] + stem[1..];
    }
  }
}
