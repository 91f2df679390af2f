/**
 Go's `strings.Join`, which builds every column of a row and the header line,
 and a splitter on a one-character separator that undoes it.
 */
module Strings {

  /** Total number of characters in the tokens. */
  function TotalLength(ts: seq<string>): nat
  {
    if ts == [] then 0 else |ts[0]| + TotalLength(ts[1..])
  }

  /** The characters the separators take up when `ts` is joined: one `sep`
      per neighbouring pair (`JoinLength` gives the closed form). */
  function SeparatorsLength(ts: seq<string>, sep: string): nat
  {
    if |ts| <= 1 then 0 else |sep| + SeparatorsLength(ts[1..], sep)
  }

  /** `strings.Join(ts, sep)`: the tokens in order, with `sep` between each
      two neighbours and nowhere else (`JoinContents`). A non-empty list
      joins to the tokens' total length plus one separator per neighbouring
      pair, and begins with its first token. */
  function Join(ts: seq<string>, sep: string): (r: string)
    ensures |ts| > 0 ==> |r| == TotalLength(ts) + SeparatorsLength(ts, sep)
    ensures |ts| > 0 ==> |ts[0]| <= |r| && r[..|ts[0]|] == ts[0]
    decreases |ts|
  {
    if |ts| == 0 then ""
    else if |ts| == 1 then ts[0]
    else ts[0] + sep + Join(ts[1..], sep)
  }

  /** The joined length is the tokens' total length plus one separator per
      neighbouring pair. */
  lemma {:induction false} JoinLength(ts: seq<string>, sep: string)
    requires |ts| > 0
    ensures |Join(ts, sep)| == TotalLength(ts) + (|ts| - 1) * |sep|
    decreases |ts|
  {
    if |ts| > 1 {
      JoinLength(ts[1..], sep);
      assert (|ts| - 1) * |sep| == |sep| + (|ts| - 2) * |sep|;
    }
  }

  /** Where token `i` starts in the joined string: after the tokens before
      it, each followed by one separator. */
  function Offset(ts: seq<string>, sep: string, i: nat): nat
    requires i <= |ts|
    decreases i
  {
    if i == 0 then 0 else |ts[0]| + |sep| + Offset(ts[1..], sep, i - 1)
  }

  /** The contents of a joined string: token `i` sits at its offset, the
      separator follows it unless it is the last token, and the last token
      ends the string. */
  lemma JoinContents(ts: seq<string>, sep: string, i: nat)
    requires i < |ts|
    ensures Offset(ts, sep, i) + |ts[i]| <= |Join(ts, sep)|
    ensures Join(ts, sep)[Offset(ts, sep, i)..Offset(ts, sep, i) + |ts[i]|] == ts[i]
    ensures i + 1 < |ts| ==>
      Offset(ts, sep, i) + |ts[i]| + |sep| <= |Join(ts, sep)| &&
      Join(ts, sep)[Offset(ts, sep, i) + |ts[i]|..Offset(ts, sep, i) + |ts[i]| + |sep|] == sep
    ensures i + 1 == |ts| ==> Offset(ts, sep, i) + |ts[i]| == |Join(ts, sep)|
  {
    TokenAtOffset(ts, sep, i);
    SeparatorAfterToken(ts, sep, i);
  }

  /** Token `i` sits at its offset in the joined string. */
  lemma {:induction false} TokenAtOffset(ts: seq<string>, sep: string, i: nat)
    requires i < |ts|
    ensures Offset(ts, sep, i) + |ts[i]| <= |Join(ts, sep)|
    ensures Join(ts, sep)[Offset(ts, sep, i)..Offset(ts, sep, i) + |ts[i]|] == ts[i]
    decreases i
  {
    if i > 0 {
      var p, rest := ts[0] + sep, Join(ts[1..], sep);
      var t := ts[i];
      assert Join(ts, sep) == p + rest;
      TokenAtOffset(ts[1..], sep, i - 1);
      var o := Offset(ts[1..], sep, i - 1);
      assert ts[1..][i - 1] == t;
      assert Offset(ts, sep, i) == |p| + o;
      SliceOfSuffix(p, rest, o, o + |t|);
    }
  }

  /** After token `i` comes the separator, or the end of the joined string
      when `i` is the last token. */
  lemma {:induction false} SeparatorAfterToken(ts: seq<string>, sep: string, i: nat)
    requires i < |ts|
    ensures i + 1 < |ts| ==>
      Offset(ts, sep, i) + |ts[i]| + |sep| <= |Join(ts, sep)| &&
      Join(ts, sep)[Offset(ts, sep, i) + |ts[i]|..Offset(ts, sep, i) + |ts[i]| + |sep|] == sep
    ensures i + 1 == |ts| ==> Offset(ts, sep, i) + |ts[i]| == |Join(ts, sep)|
    decreases i
  {
    if i == 0 {
      JoinFirst(ts, sep);
    } else {
      var p, rest := ts[0] + sep, Join(ts[1..], sep);
      var t := ts[i];
      assert Join(ts, sep) == p + rest;
      SeparatorAfterToken(ts[1..], sep, i - 1);
      var o := Offset(ts[1..], sep, i - 1);
      assert ts[1..][i - 1] == t;
      assert Offset(ts, sep, i) == |p| + o;
      if i + 1 < |ts| {
        SliceOfSuffix(p, rest, o + |t|, o + |t| + |sep|);
      }
    }
  }

  /** Every token sits at its offset in the joined string. */
  lemma JoinHoldsTokens(ts: seq<string>, sep: string)
    ensures forall i :: 0 <= i < |ts| ==>
      Offset(ts, sep, i) + |ts[i]| <= |Join(ts, sep)| &&
      Join(ts, sep)[Offset(ts, sep, i)..Offset(ts, sep, i) + |ts[i]|] == ts[i]
  {
    forall i | 0 <= i < |ts|
      ensures Offset(ts, sep, i) + |ts[i]| <= |Join(ts, sep)|
      ensures Join(ts, sep)[Offset(ts, sep, i)..Offset(ts, sep, i) + |ts[i]|] == ts[i]
    {
      TokenAtOffset(ts, sep, i);
    }
  }

  /** When more tokens follow the first, the separator comes right after it;
      otherwise the first token is the whole joined string. (That the first
      token begins the joined string is `Join`'s own contract.) */
  lemma JoinFirst(ts: seq<string>, sep: string)
    requires 0 < |ts|
    ensures 1 < |ts| ==> |ts[0]| + |sep| <= |Join(ts, sep)| && Join(ts, sep)[|ts[0]|..|ts[0]| + |sep|] == sep
    ensures 1 == |ts| ==> |ts[0]| == |Join(ts, sep)|
  {
    if |ts| > 1 {
      var rest := Join(ts[1..], sep);
      assert Join(ts, sep) == ts[0] + (sep + rest);
      SliceOfPrefix(sep, rest);
      SliceOfSuffix(ts[0], sep + rest, 0, |sep|);
    }
  }

  lemma SliceOfSuffix(p: string, rest: string, x: nat, y: nat)
    requires x <= y <= |rest|
    ensures (p + rest)[|p| + x..|p| + y] == rest[x..y]
  {
    var a, b := (p + rest)[|p| + x..|p| + y], rest[x..y];
    assert forall k :: 0 <= k < y - x ==> a[k] == b[k];
  }

  lemma SliceOfPrefix(p: string, rest: string)
    ensures (p + rest)[..|p|] == p
  {
  }

  /** The pieces of `s` between occurrences of the character `d`; a string
      without `d` is one piece, so there is always at least one. */
  function SplitOn(s: string, d: char): (parts: seq<string>)
    ensures |parts| >= 1
    decreases |s|
  {
    if |s| == 0 then [""]
    else
      var rest := SplitOn(s[1..], d);
      if s[0] == d then [""] + rest
      else [[s[0]] + rest[0]] + rest[1..]
  }

  lemma {:induction false} SplitWithoutDelimiter(t: string, d: char)
    requires d !in t
    ensures SplitOn(t, d) == [t]
    decreases |t|
  {
    if |t| > 0 {
      SplitWithoutDelimiter(t[1..], d);
      assert [t[0]] + t[1..] == t;
    }
  }

  lemma {:induction false} SplitAfterFirstDelimiter(t: string, u: string, d: char)
    requires d !in t
    ensures SplitOn(t + [d] + u, d) == [t] + SplitOn(u, d)
    decreases |t|
  {
    var s := t + [d] + u;
    if |t| == 0 {
      assert s[1..] == u;
    } else {
      assert s[1..] == t[1..] + [d] + u;
      SplitAfterFirstDelimiter(t[1..], u, d);
      assert [t[0]] + t[1..] == t;
    }
  }

  /** Joining with a one-character separator that no token contains loses
      nothing: splitting on that character gives the tokens back. At least
      one token is needed, since no tokens and the one empty token both join
      to the empty string. */
  lemma {:induction false} JoinSplitRoundTrip(ts: seq<string>, d: char)
    requires |ts| > 0
    requires forall i :: 0 <= i < |ts| ==> d !in ts[i]
    ensures SplitOn(Join(ts, [d]), d) == ts
    decreases |ts|
  {
    if |ts| == 1 {
      SplitWithoutDelimiter(ts[0], d);
    } else {
      var rest := ts[1..];
      assert forall i :: 0 <= i < |rest| ==> d !in rest[i] by {
        forall i | 0 <= i < |rest| ensures d !in rest[i] {
          assert rest[i] == ts[i + 1];
        }
      }
      JoinSplitRoundTrip(rest, d);
      assert Join(ts, [d]) == ts[0] + [d] + Join(rest, [d]);
      SplitAfterFirstDelimiter(ts[0], Join(rest, [d]), d);
      assert [ts[0]] + rest == ts;
    }
  }
}
