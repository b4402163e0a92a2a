/** Byte strings, the two byte searches the library uses, and the line structure
    of a byte stream. */
module Bytes {

  newtype byte = x: int | 0 <= x < 256

  const NEWLINE: byte := 10

  datatype Option<+T> = None | Some(value: T)

  function Min(a: nat, b: nat): nat {
    if a <= b then a else b
  }

  /** The index of the last occurrence of `b` (`memrchr`). */
  function LastIndex(b: byte, s: seq<byte>): (r: Option<nat>)
    ensures r.None? <==> b !in s
    ensures r.Some? ==> r.value < |s| && s[r.value] == b && b !in s[r.value + 1..]
  {
    if s == [] then None
    else if s[|s| - 1] == b then Some(|s| - 1)
    else
      assert s == s[..|s| - 1] + [s[|s| - 1]];
      LastIndex(b, s[..|s| - 1])
  }

  /** The index of the first occurrence of `b` (`memchr`). */
  function FirstIndex(b: byte, s: seq<byte>): (r: Option<nat>)
    ensures r.None? <==> b !in s
    ensures r.Some? ==> r.value < |s| && s[r.value] == b && b !in s[..r.value]
  {
    if s == [] then None
    else if s[0] == b then Some(0)
    else
      assert s == [s[0]] + s[1..];
      var rest := FirstIndex(b, s[1..]);
      if rest.None? then None else Some(rest.value + 1)
  }

  /** The part of a stream through its first `delim`, or all of it if it has none. */
  function Through(delim: byte, s: seq<byte>): (r: seq<byte>)
    ensures r <= s && (delim in s <==> delim in r)
    ensures delim in r ==> r[|r| - 1] == delim && delim !in r[..|r| - 1]
    ensures delim !in r ==> r == s
  {
    match FirstIndex(delim, s)
    case None => s
    case Some(i) =>
      assert s[..i + 1][i] == delim;
      s[..i + 1]
  }

  lemma {:induction false} FirstIndexUnique(b: byte, s: seq<byte>, i: nat)
    requires i < |s| && s[i] == b && b !in s[..i]
    ensures FirstIndex(b, s) == Some(i)
  {
    if i > 0 {
      assert s[..i] == [s[0]] + s[1..][..i - 1];
      FirstIndexUnique(b, s[1..], i - 1);
    }
  }

  lemma ThroughPrefix(delim: byte, head: seq<byte>, s: seq<byte>)
    requires head <= s && delim in head
    ensures Through(delim, s) == Through(delim, head)
  {
    var i := FirstIndex(delim, head).value;
    assert s[..i] == head[..i];
    FirstIndexUnique(delim, s, i);
  }

  /** Reading a stream through a delimiter piece by piece: once a part without it is read,
      what remains is to read the rest through it. */
  lemma ThroughResumes(delim: byte, head: seq<byte>, rest: seq<byte>)
    requires delim !in head
    ensures Through(delim, head + rest) == head + Through(delim, rest)
  {
    if delim in rest {
      var s, i := head + rest, FirstIndex(delim, rest).value;
      JoinedAt(head, rest, i);
      JoinedAt(head, rest, i + 1);
      FirstIndexUnique(delim, s, |head| + i);
    }
  }

  /** Looking for the delimiter in a part of the stream first: the piece found there is what is
      wanted if it has the delimiter, and all of the part if not. */
  lemma ThroughPart(delim: byte, part: seq<byte>, s: seq<byte>)
    requires part <= s
    ensures var piece := Through(delim, part);
            && part[..|piece|] == piece && s == piece + s[|piece|..]
            && (delim in piece ==> piece == Through(delim, s))
  {
    if delim in part {
      ThroughPrefix(delim, part, s);
    }
  }

  /** One more piece taken: the search is over once it has the delimiter or is empty, which
      at the end of the stream it is. */
  lemma PieceEndsSearch(delim: byte, got: seq<byte>, piece: seq<byte>, rest: seq<byte>)
    requires delim !in got
    requires if piece == [] then rest == [] else delim in piece && piece == Through(delim, piece + rest)
    ensures got + piece == Through(delim, got + (piece + rest))
  {
    ThroughResumes(delim, got, piece + rest);
    if piece == [] {
      assert piece + rest == [];
    }
  }

  lemma Associate(a: seq<byte>, b: seq<byte>, c: seq<byte>)
    ensures a + (b + c) == (a + b) + c
  {
  }

  lemma AddNothing(a: seq<byte>)
    ensures a + [] == a && a + a[..0] == a
  {
  }

  lemma PrefixGrows(a: seq<byte>, b: seq<byte>, n: nat)
    requires n <= |b|
    ensures a <= a + b[..n] <= a + b
  {
  }

  lemma JoinedAt(a: seq<byte>, b: seq<byte>, n: nat)
    requires n <= |b|
    ensures (a + b)[..|a|] == a && (a + b)[|a|..|a| + n] == b[..n]
    ensures (a + b)[..|a| + n] == a + b[..n]
  {
  }

  lemma JoinedFrom(a: seq<byte>, b: seq<byte>, n: nat)
    requires n <= |b|
    ensures (a + b)[|a| + n..] == b[n..] && a[|a|..] == []
  {
  }

  /** The bytes of a list of slices, end to end. */
  function Concat(slices: seq<seq<byte>>): seq<byte> {
    if slices == [] then [] else slices[0] + Concat(slices[1..])
  }

  lemma ConcatCons(first: seq<byte>, rest: seq<seq<byte>>)
    ensures Concat([first] + rest) == first + Concat(rest)
  {
    assert ([first] + rest)[1..] == rest;
  }

  function SumLengths(slices: seq<seq<byte>>): (n: nat)
    ensures n == |Concat(slices)|
  {
    if slices == [] then 0 else |slices[0]| + SumLengths(slices[1..])
  }

  lemma {:induction false} ConcatAppend(a: seq<seq<byte>>, b: seq<seq<byte>>)
    ensures Concat(a + b) == Concat(a) + Concat(b)
  {
    if a == [] {
      assert a + b == b;
    } else {
      assert (a + b)[0] == a[0] && (a + b)[1..] == a[1..] + b;
      ConcatAppend(a[1..], b);
    }
  }

  lemma ConcatSplit(slices: seq<seq<byte>>, k: nat)
    requires k <= |slices|
    ensures Concat(slices) == Concat(slices[..k]) + Concat(slices[k..])
  {
    assert slices == slices[..k] + slices[k..];
    ConcatAppend(slices[..k], slices[k..]);
  }

  lemma ConcatSnoc(a: seq<seq<byte>>, last: seq<byte>)
    ensures Concat(a + [last]) == Concat(a) + last
  {
    ConcatAppend(a, [last]);
    assert Concat([last]) == last + Concat([]);
  }

  lemma {:induction false} NewlineInConcat(slices: seq<seq<byte>>, b: byte)
    ensures b in Concat(slices) <==> exists i :: 0 <= i < |slices| && b in slices[i]
  {
    if slices != [] {
      NewlineInConcat(slices[1..], b);
      if b in Concat(slices[1..]) {
        var i :| 0 <= i < |slices[1..]| && b in slices[1..][i];
        assert b in slices[i + 1];
      }
      forall i | 0 < i < |slices| && b in slices[i] ensures b in Concat(slices[1..]) {
        assert slices[1..][i - 1] == slices[i];
      }
    }
  }

  predicate IsSuffix(s: seq<byte>, of: seq<byte>) {
    |s| <= |of| && s == of[|of| - |s|..]
  }

  lemma SuffixOfSuffix(a: seq<byte>, b: seq<byte>, c: seq<byte>)
    requires IsSuffix(a, b) && IsSuffix(b, c)
    ensures IsSuffix(a, c)
  {
  }

  /** What a line-buffered writer may retain: a buffer that holds a newline also ends
      in one, so looking at its last byte tells whether it holds a complete line. */
  predicate LineDiscipline(buffered: seq<byte>) {
    NEWLINE in buffered ==> buffered[|buffered| - 1] == NEWLINE
  }

  /** The part of a stream up to and including its last newline. */
  function CompletedLines(s: seq<byte>): (r: seq<byte>)
    ensures r <= s
    ensures r != [] ==> r[|r| - 1] == NEWLINE
    ensures NEWLINE !in s[|r|..]
  {
    match LastIndex(NEWLINE, s)
    case None => []
    case Some(i) => s[..i + 1]
  }

  /** If what is still buffered holds no newline, every completed line of the whole
      stream has been delivered; and conversely. */
  lemma CompletedLinesDelivered(delivered: seq<byte>, buffered: seq<byte>)
    ensures CompletedLines(delivered + buffered) <= delivered <==> NEWLINE !in buffered
  {
    var s := delivered + buffered;
    var lines := CompletedLines(s);
    forall i | |delivered| <= i < |s| ensures s[i] in buffered {
      assert s[i] == buffered[i - |delivered|];
    }
    if NEWLINE in buffered {
      var i :| 0 <= i < |buffered| && buffered[i] == NEWLINE;
      assert s[|delivered| + i] == NEWLINE;
      assert forall j :: |lines| <= j < |s| ==> s[j] == s[|lines|..][j - |lines|];
    }
  }

  lemma SuffixKeepsDiscipline(s: seq<byte>, of: seq<byte>)
    requires IsSuffix(s, of) && LineDiscipline(of)
    ensures LineDiscipline(s)
  {
    if NEWLINE in s {
      var i :| 0 <= i < |s| && s[i] == NEWLINE;
      assert of[|of| - |s| + i] == NEWLINE;
    }
  }
}
