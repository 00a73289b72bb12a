/** String operations the source takes from JavaScript's `String.prototype`:
    `toLowerCase` (restricted to ASCII), `trim`, `startsWith`, `includes`,
    `split` with a non-empty separator, and `Array.prototype.join`. */
module Text {
  import opened Wrappers

  /** ASCII lower-casing of one character; every other character is unchanged. */
  function LowerChar(c: char): (d: char)
    ensures 'A' <= c <= 'Z' ==> d as int == c as int + 32
    ensures !('A' <= c <= 'Z') ==> d == c
  {
    if 'A' <= c <= 'Z' then (c as int + 32) as char else c
  }

  /** `s.toLowerCase()` on the ASCII range. */
  function Lower(s: string): (r: string)
    ensures |r| == |s|
    ensures forall i :: 0 <= i < |s| ==> r[i] == LowerChar(s[i])
  {
    if |s| == 0 then "" else [LowerChar(s[0])] + Lower(s[1..])
  }

  lemma {:induction false} LowerAppend(a: string, b: string)
    ensures Lower(a + b) == Lower(a) + Lower(b)
  {
    assert Lower(a + b) == Lower(a) + Lower(b);
  }

  /** ASCII decimal digit, the class `\d` of a JavaScript regular expression. */
  predicate IsDigit(c: char) {
    '0' <= c <= '9'
  }

  /** The characters `String.prototype.trim` removes: ECMAScript WhiteSpace and
      LineTerminator. */
  predicate IsWhitespace(c: char) {
    var n := c as int;
    (0x09 <= n <= 0x0D) || n == 0x20 || n == 0xA0 || n == 0x1680
    || (0x2000 <= n <= 0x200A) || n == 0x2028 || n == 0x2029 || n == 0x202F
    || n == 0x205F || n == 0x3000 || n == 0xFEFF
  }

  /** Neither end of `s` is whitespace. */
  predicate IsTrimmed(s: string) {
    |s| == 0 || (!IsWhitespace(s[0]) && !IsWhitespace(s[|s| - 1]))
  }

  /** `s` with leading whitespace removed. */
  function TrimStart(s: string): (r: string)
    ensures |r| <= |s| && r == s[|s| - |r|..]
    ensures forall i :: 0 <= i < |s| - |r| ==> IsWhitespace(s[i])
    ensures |r| == 0 || !IsWhitespace(r[0])
  {
    if |s| > 0 && IsWhitespace(s[0]) then TrimStart(s[1..]) else s
  }

  /** `s` with trailing whitespace removed. */
  function TrimEnd(s: string): (r: string)
    ensures |r| <= |s| && r == s[..|r|]
    ensures forall i :: |r| <= i < |s| ==> IsWhitespace(s[i])
    ensures |r| == 0 || !IsWhitespace(r[|r| - 1])
  {
    if |s| > 0 && IsWhitespace(s[|s| - 1]) then TrimEnd(s[..|s| - 1]) else s
  }

  /** `s.trim()`: the longest infix of `s` with no whitespace at either end. */
  function Trim(s: string): (r: string)
    ensures IsTrimmed(r)
    ensures Contains(s, r)
    ensures forall c :: c in r ==> c in s
  {
    TrimParts(s);
    TrimEnd(TrimStart(s))
  }

  lemma {:induction false} TrimParts(s: string)
    ensures var r := TrimEnd(TrimStart(s));
            IsTrimmed(r) && Contains(s, r) && forall c :: c in r ==> c in s
  {
    var t := TrimStart(s);
    var r := TrimEnd(t);
    InfixOfSuffix(s, t, r);
    assert OccursAt(s, r, |s| - |t|);
    assert IsTrimmed(r) by {
      if |r| > 0 {
        assert !IsWhitespace(t[0]);
        assert !IsWhitespace(r[|r| - 1]);
      }
    }
  }

  /** A prefix of a suffix of `s` is an infix of `s`. */
  lemma {:induction false} InfixOfSuffix(s: string, t: string, r: string)
    requires |t| <= |s| && t == s[|s| - |t|..]
    requires |r| <= |t| && r == t[..|r|]
    ensures OccursAt(s, r, |s| - |t|)
    ensures forall c :: c in r ==> c in s
    ensures |r| > 0 ==> r[0] == t[0]
  {
    var off := |s| - |t|;
    assert r == s[off..off + |r|];
    forall c | c in r
      ensures c in s
    {
      var i :| 0 <= i < |r| && r[i] == c;
      assert s[off + i] == c;
    }
  }

  /** A string with no whitespace at either end is its own trim. */
  lemma {:induction false} TrimTrimmed(s: string)
    requires IsTrimmed(s)
    ensures Trim(s) == s
  {
  }

  /** `needle` occurs in `hay` starting at index `k`. */
  predicate OccursAt(hay: string, needle: string, k: int) {
    0 <= k && k + |needle| <= |hay| && hay[k..k + |needle|] == needle
  }

  /** `hay.includes(needle)`. */
  predicate Contains(hay: string, needle: string) {
    exists k :: 0 <= k <= |hay| && OccursAt(hay, needle, k)
  }

  /** An occurrence survives adding text on either side. */
  lemma {:induction false} ContainsWithin(pre: string, s: string, post: string, needle: string)
    requires Contains(s, needle)
    ensures Contains(pre + s + post, needle)
  {
    var k :| 0 <= k <= |s| && OccursAt(s, needle, k);
    assert (pre + s + post)[|pre| + k..|pre| + k + |needle|] == s[k..k + |needle|];
    assert OccursAt(pre + s + post, needle, |pre| + k);
  }

  /** The first and last of three concatenated parts are its prefix and suffix. */
  lemma {:induction false} PartsOfThree(pre: string, s: string, post: string)
    ensures pre <= pre + s + post
    ensures (pre + s + post)[|pre| + |s|..] == post
  {
    assert (pre + s + post)[..|pre|] == pre;
  }

  /** A prefix is contained in the text. */
  lemma {:induction false} PrefixContained(a: string, b: string)
    requires a <= b
    ensures Contains(b, a)
  {
    assert OccursAt(b, a, 0);
  }

  /** Containment is transitive. */
  lemma {:induction false} ContainsTrans(a: string, b: string, c: string)
    requires Contains(a, b) && Contains(b, c)
    ensures Contains(a, c)
  {
    var i :| 0 <= i <= |a| && OccursAt(a, b, i);
    var j :| 0 <= j <= |b| && OccursAt(b, c, j);
    assert a[i..i + |b|] == b;
    forall m | 0 <= m < |c|
      ensures a[i + j + m] == c[m]
    {
      assert a[i + j + m] == a[i..i + |b|][j + m];
      assert b[j + m] == b[j..j + |c|][m];
    }
    assert a[i + j..i + j + |c|] == c;
    assert OccursAt(a, c, i + j);
  }

  /** Every string contains itself. */
  lemma {:induction false} ContainsSelf(s: string)
    ensures Contains(s, s)
  {
    assert OccursAt(s, s, 0);
  }

  /** `s.indexOf(needle, from)`, or `None` for -1: the first occurrence at or after `from`. */
  function IndexOf(s: string, needle: string, from: nat): (r: Option<nat>)
    ensures r.Some? ==> from <= r.value && OccursAt(s, needle, r.value)
    ensures r.Some? ==> forall j :: from <= j < r.value ==> !OccursAt(s, needle, j)
    ensures r.None? ==> forall j :: from <= j ==> !OccursAt(s, needle, j)
    decreases |s| - from
  {
    if from + |needle| > |s| then None
    else if s[from..from + |needle|] == needle then Some(from)
    else IndexOf(s, needle, from + 1)
  }

  /** `includes` is an occurrence search from the start. */
  lemma {:induction false} ContainsIndexOf(hay: string, needle: string)
    ensures Contains(hay, needle) <==> IndexOf(hay, needle, 0).Some?
  {
    var r := IndexOf(hay, needle, 0);
    if r.Some? {
      assert OccursAt(hay, needle, r.value);
    }
  }

  /** An occurrence inside a prefix is an occurrence in the whole string. */
  lemma {:induction false} OccursInPrefix(s: string, needle: string, k: nat, j: int)
    requires k <= |s|
    requires OccursAt(s[..k], needle, j)
    ensures OccursAt(s, needle, j)
  {
    assert s[..k][j..j + |needle|] == s[j..j + |needle|];
  }

  /** The text before the first occurrence of `needle` does not contain it. */
  lemma {:induction false} FirstOccurrencePrefix(s: string, needle: string, k: nat)
    requires k <= |s| && |needle| > 0
    requires forall j :: 0 <= j < k ==> !OccursAt(s, needle, j)
    ensures !Contains(s[..k], needle)
  {
    forall j | 0 <= j <= k && OccursAt(s[..k], needle, j)
      ensures false
    {
      OccursInPrefix(s, needle, k, j);
    }
  }

  /** `s.split(sep)` for a non-empty separator: the pieces between the
      leftmost non-overlapping occurrences of `sep`. */
  function SplitOn(s: string, sep: string): (r: seq<string>)
    requires |sep| > 0
    ensures |r| >= 1
    ensures forall i :: 0 <= i < |r| ==> !Contains(r[i], sep)
    decreases |s|
  {
    match IndexOf(s, sep, 0)
    case None =>
      [s]
    case Some(k) =>
      var head := s[..k];
      FirstOccurrencePrefix(s, sep, k);
      var rest := SplitOn(s[k + |sep|..], sep);
      var r := [head] + rest;
      assert forall i :: 1 <= i < |r| ==> r[i] == rest[i - 1];
      r
  }

  /** `parts.join(sep)`. */
  function Join(sep: string, parts: seq<string>): string
  {
    if |parts| == 0 then ""
    else if |parts| == 1 then parts[0]
    else parts[0] + sep + Join(sep, parts[1..])
  }

  /** Every part appears in the joined text. */
  lemma {:induction false} JoinContainsPart(sep: string, parts: seq<string>, i: nat)
    requires i < |parts|
    ensures Contains(Join(sep, parts), parts[i])
    decreases |parts|
  {
    if |parts| == 1 {
      ContainsSelf(parts[0]);
    } else {
      var tail := Join(sep, parts[1..]);
      assert Join(sep, parts) == parts[0] + sep + tail;
      if i == 0 {
        ContainsSelf(parts[0]);
        ContainsWithin("", parts[0], sep + tail, parts[0]);
        assert "" + parts[0] + (sep + tail) == parts[0] + sep + tail;
      } else {
        assert parts[1..][i - 1] == parts[i];
        JoinContainsPart(sep, parts[1..], i - 1);
        ContainsWithin(parts[0] + sep, tail, "", parts[i]);
        assert parts[0] + sep + tail + "" == parts[0] + sep + tail;
      }
    }
  }

  /** Joining the pieces of a split with the same separator gives back the text. */
  lemma {:induction false} JoinSplit(s: string, sep: string)
    requires |sep| > 0
    ensures Join(sep, SplitOn(s, sep)) == s
    decreases |s|
  {
    match IndexOf(s, sep, 0)
    case None =>
    case Some(k) =>
      var rest := SplitOn(s[k + |sep|..], sep);
      JoinSplit(s[k + |sep|..], sep);
      assert SplitOn(s, sep) == [s[..k]] + rest;
      assert s == s[..k] + sep + s[k + |sep|..];
  }

  /** Joining with a final part appended is joining, the separator, then that part. */
  lemma {:induction false} JoinSnoc(sep: string, parts: seq<string>, last: string)
    requires |parts| > 0
    ensures Join(sep, parts + [last]) == Join(sep, parts) + sep + last
    decreases |parts|
  {
    if |parts| == 1 {
      assert parts + [last] == [parts[0], last];
    } else {
      assert (parts + [last])[1..] == parts[1..] + [last];
      JoinSnoc(sep, parts[1..], last);
    }
  }

  /** Joining one more part adds the separator only when there were parts before. */
  lemma {:induction false} JoinAppendPart(sep: string, parts: seq<string>, last: string)
    ensures Join(sep, parts + [last]) == Join(sep, parts) + (if |parts| == 0 then "" else sep) + last
  {
    if |parts| == 0 {
      assert parts + [last] == [last];
    } else {
      JoinSnoc(sep, parts, last);
    }
  }

  /** Extending the last part extends the joined text. */
  lemma {:induction false} JoinExtendLast(sep: string, parts: seq<string>, last: string, more: string)
    ensures Join(sep, parts + [last]) + more == Join(sep, parts + [last + more])
  {
    if |parts| > 0 {
      JoinSnoc(sep, parts, last);
      JoinSnoc(sep, parts, last + more);
    } else {
      assert parts + [last] == [last];
      assert parts + [last + more] == [last + more];
    }
  }

  /** Replacing the last part by the pieces it is the join of flattens the join. */
  lemma {:induction false} JoinReplaceLast(sep: string, parts: seq<string>, pieces: seq<string>)
    requires |pieces| > 0
    ensures Join(sep, parts + [Join(sep, pieces)]) == Join(sep, parts + pieces)
    decreases |parts|
  {
    if |parts| == 0 {
      assert parts + [Join(sep, pieces)] == [Join(sep, pieces)];
      assert parts + pieces == pieces;
    } else if |parts| == 1 {
      assert parts + [Join(sep, pieces)] == [parts[0], Join(sep, pieces)];
      assert (parts + pieces)[1..] == pieces;
    } else {
      assert (parts + [Join(sep, pieces)])[1..] == parts[1..] + [Join(sep, pieces)];
      assert (parts + pieces)[1..] == parts[1..] + pieces;
      JoinReplaceLast(sep, parts[1..], pieces);
    }
  }

  /** Splitting on a single character yields one more piece than that
      character has occurrences. */
  lemma {:induction false} SplitCharCount(s: string, c: char)
    ensures |SplitOn(s, [c])| == multiset(s)[c] + 1
    decreases |s|
  {
    match IndexOf(s, [c], 0)
    case None =>
      CharAbsent(s, c, |s|);
    case Some(k) =>
      SplitCharCount(s[k + 1..], c);
      CharAbsent(s, c, k);
      MultisetAround(s, k);
  }

  /** With no occurrence of `c` before `k`, the first `k` characters hold no `c`. */
  lemma {:induction false} CharAbsent(s: string, c: char, k: nat)
    requires k <= |s|
    requires forall j :: 0 <= j < k ==> !OccursAt(s, [c], j)
    ensures multiset(s[..k])[c] == 0
    ensures k == |s| ==> multiset(s)[c] == 0
  {
    if c in s[..k] {
      var j :| 0 <= j < k && s[..k][j] == c;
      OccursChar(s, c, j);
    }
    if k == |s| {
      assert s[..k] == s;
    }
  }

  /** A sequence's multiset, split around position `k`. */
  lemma {:induction false} MultisetAround(s: string, k: nat)
    requires k < |s|
    ensures multiset(s) == multiset(s[..k]) + multiset{s[k]} + multiset(s[k + 1..])
  {
    assert s == s[..k] + [s[k]] + s[k + 1..];
  }

  /** The first occurrence is the only index `IndexOf` can answer. */
  lemma {:induction false} IndexOfFirst(s: string, needle: string, k: nat)
    requires OccursAt(s, needle, k)
    requires forall j :: 0 <= j < k ==> !OccursAt(s, needle, j)
    ensures IndexOf(s, needle, 0) == Some(k)
  {
  }

  /** A one-character needle occurs exactly where that character is. */
  lemma {:induction false} OccursChar(s: string, c: char, j: int)
    ensures OccursAt(s, [c], j) <==> 0 <= j < |s| && s[j] == c
  {
    if 0 <= j < |s| {
      assert s[j..j + 1] == [s[j]];
    }
  }

  /** `s.includes(c)` for a one-character string is character membership. */
  lemma {:induction false} ContainsChar(s: string, c: char)
    ensures Contains(s, [c]) <==> c in s
  {
    if c in s {
      var j :| 0 <= j < |s| && s[j] == c;
      OccursChar(s, c, j);
    }
    if Contains(s, [c]) {
      var j :| 0 <= j <= |s| && OccursAt(s, [c], j);
      OccursChar(s, c, j);
    }
  }

  /** Where the first `c` of `s + [d]` is: the first `c` of `s`, else `d` itself. */
  lemma {:induction false} IndexOfSnoc(s: string, c: char, d: char)
    ensures IndexOf(s + [d], [c], 0)
         == match IndexOf(s, [c], 0)
            case Some(k) => Some(k)
            case None => if d == c then Some(|s|) else None
  {
    var t := s + [d];
    forall j | 0 <= j <= |s|
      ensures OccursAt(t, [c], j) <==> (if j < |s| then OccursAt(s, [c], j) else d == c)
    {
      OccursChar(t, c, j);
      OccursChar(s, c, j);
    }
    match IndexOf(s, [c], 0)
    case Some(k) =>
      IndexOfFirst(t, [c], k);
    case None =>
      if d == c {
        IndexOfFirst(t, [c], |s|);
      } else {
        var r := IndexOf(t, [c], 0);
        if r.Some? {
          OccursChar(t, c, r.value);
        }
      }
  }

  /** All pieces of a split but the last. */
  function Init<T>(xs: seq<T>): seq<T>
    requires |xs| > 0
  {
    xs[..|xs| - 1]
  }

  /** An occurrence that ends inside `s` is unaffected by what follows `s`. */
  lemma {:induction false} OccursAppend(s: string, c: string, needle: string, j: int)
    requires j + |needle| <= |s|
    ensures OccursAt(s + c, needle, j) <==> OccursAt(s, needle, j)
  {
    if 0 <= j {
      assert (s + c)[j..j + |needle|] == s[j..j + |needle|];
    }
  }

  /** The first occurrence in `s` stays the first once more text follows. */
  lemma {:induction false} IndexOfAppend(s: string, c: string, sep: string, k: nat)
    requires IndexOf(s, sep, 0) == Some(k)
    ensures IndexOf(s + c, sep, 0) == Some(k)
  {
    OccursAppend(s, c, sep, k);
    forall j | 0 <= j < k
      ensures !OccursAt(s + c, sep, j)
    {
      OccursAppend(s, c, sep, j);
    }
    IndexOfFirst(s + c, sep, k);
  }

  /** One step of splitting extended text: the first piece is split off as before. */
  lemma {:induction false} SplitOnAppendStep(s: string, c: string, sep: string, k: nat)
    requires |sep| > 0 && IndexOf(s, sep, 0) == Some(k)
    ensures SplitOn(s + c, sep) == [s[..k]] + SplitOn(s[k + |sep|..] + c, sep)
  {
    var t := s + c;
    IndexOfAppend(s, c, sep, k);
    SplitOnUnfold(t, sep, k);
    assert t[k + |sep|..] == s[k + |sep|..] + c;
    assert t[..k] == s[..k];
  }

  /** Splitting text that has more appended: the complete pieces stay, and
      only the last piece sees the addition. */
  lemma {:induction false} SplitOnAppend(s: string, c: string, sep: string)
    requires |sep| > 0
    ensures var p := SplitOn(s, sep);
            SplitOn(s + c, sep) == Init(p) + SplitOn(p[|p| - 1] + c, sep)
    decreases |s|
  {
    var p := SplitOn(s, sep);
    match IndexOf(s, sep, 0)
    case None =>
      assert p == [s];
      assert Init(p) == [];
    case Some(k) =>
      var r := s[k + |sep|..];
      var pr := SplitOn(r, sep);
      var tail := SplitOn(pr[|pr| - 1] + c, sep);
      SplitOnUnfold(s, sep, k);
      SplitOnAppendStep(s, c, sep, k);
      SplitOnAppend(r, c, sep);
      ConsInit(s[..k], pr, SplitOn(s + c, sep), p, SplitOn(r + c, sep), tail);
  }

  /** Splitting at the first occurrence: its piece, then the split of the rest. */
  lemma {:induction false} SplitOnUnfold(s: string, sep: string, k: nat)
    requires |sep| > 0 && IndexOf(s, sep, 0) == Some(k)
    ensures SplitOn(s, sep) == [s[..k]] + SplitOn(s[k + |sep|..], sep)
  {
  }

  /** Putting an element in front commutes with adding one at the end. */
  lemma {:induction false} ConsSnoc<T>(x: T, xs: seq<T>, whole: seq<T>, p: seq<T>, rest: seq<T>, e: T)
    requires p == [x] + xs
    requires whole == [x] + rest && rest == xs + [e]
    ensures whole == p + [e]
  {
  }

  /** Putting an element in front commutes with dropping the last one. */
  lemma {:induction false} ConsInit<T>(x: T, xs: seq<T>, whole: seq<T>, p: seq<T>, rest: seq<T>, tail: seq<T>)
    requires |xs| > 0 && p == [x] + xs
    requires whole == [x] + rest && rest == Init(xs) + tail
    ensures whole == Init(p) + tail
    ensures p[|p| - 1] == xs[|xs| - 1]
  {
    assert p[..|xs|] == [x] + xs[..|xs| - 1];
  }

  /** The empty text splits into one empty piece. */
  lemma {:induction false} SplitOnEmpty(sep: string)
    requires |sep| > 0
    ensures SplitOn("", sep) == [""]
  {
  }

  /** A piece free of `sep`'s first character, followed by `sep`, is split off whole. */
  lemma {:induction false} SplitOnLeadingPiece(piece: string, sep: string, rest: string)
    requires |sep| > 0 && sep[0] !in piece
    ensures SplitOn(piece + sep + rest, sep) == [piece] + SplitOn(rest, sep)
  {
    var t := piece + sep + rest;
    assert t[|piece|..|piece| + |sep|] == sep;
    forall j | 0 <= j < |piece|
      ensures !OccursAt(t, sep, j)
    {
      assert t[j] == piece[j];
    }
    IndexOfFirst(t, sep, |piece|);
    assert t[..|piece|] == piece;
    assert t[|piece| + |sep|..] == rest;
  }

  /** Text free of a one-character separator splits into itself alone. */
  lemma {:induction false} SplitOnAbsent(s: string, c: char)
    requires c !in s
    ensures SplitOn(s, [c]) == [s]
  {
    ContainsChar(s, c);
    ContainsIndexOf(s, [c]);
  }

  /** Splitting a join of parts free of the one-character separator gives the
      parts back. */
  lemma {:induction false} SplitJoin(c: char, parts: seq<string>)
    requires |parts| > 0
    requires forall i :: 0 <= i < |parts| ==> c !in parts[i]
    ensures SplitOn(Join([c], parts), [c]) == parts
    decreases |parts|
  {
    if |parts| == 1 {
      SplitOnAbsent(parts[0], c);
    } else {
      var rest := parts[1..];
      SplitJoin(c, rest);
      SplitOnLeadingPiece(parts[0], [c], Join([c], rest));
      assert parts == [parts[0]] + rest;
    }
  }

  /** Splitting on `c` after appending a character: a `c` opens a new empty
      piece, any other character extends the last piece. */
  lemma {:induction false} SplitOnSnoc(s: string, c: char, d: char)
    ensures var p := SplitOn(s, [c]);
            SplitOn(s + [d], [c])
            == if d == c then p + [""] else Init(p) + [p[|p| - 1] + [d]]
    decreases |s|
  {
    var t := s + [d];
    IndexOfSnoc(s, c, d);
    match IndexOf(s, [c], 0)
    case Some(k) =>
      var rest := s[k + 1..];
      var r := SplitOn(rest, [c]);
      var p := SplitOn(s, [c]);
      SplitOnUnfold(s, [c], k);
      SplitOnAppendStep(s, [d], [c], k);
      SplitOnSnoc(rest, c, d);
      if d == c {
        ConsSnoc(s[..k], r, SplitOn(t, [c]), p, SplitOn(rest + [d], [c]), "");
      } else {
        ConsInit(s[..k], r, SplitOn(t, [c]), p, SplitOn(rest + [d], [c]), [r[|r| - 1] + [d]]);
      }
    case None =>
      if d == c {
        SplitOnUnfold(t, [c], |s|);
        assert t[|s| + 1..] == "";
        assert t[..|s|] == s;
        assert SplitOn("", [c]) == [""];
      }
  }

  /** `s.split(c)[0]`: the text before the first `c` (all of `s` when there is none). */
  function Before(s: string, c: char): (r: string)
    ensures r <= s
    ensures c !in r
    ensures |r| < |s| ==> s[|r|] == c
  {
    var r := SplitOn(s, [c])[0];
    match IndexOf(s, [c], 0)
    case None =>
      assert c !in r by {
        if c in r {
          var k :| 0 <= k < |r| && r[k] == c;
          assert OccursAt(r, [c], k);
        }
      }
      r
    case Some(k) =>
      assert c !in r by {
        if c in r {
          var j :| 0 <= j < |r| && r[j] == c;
          assert OccursAt(r, [c], j);
        }
      }
      r
  }
}
