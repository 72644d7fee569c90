/** The three JavaScript string operations the engine relies on: the `<`
    comparison (lexicographic over characters, a proper prefix being
    smaller), `Array.prototype.join` and `String.prototype.includes`. */
module JsStrings {

  /** `a < b` on JavaScript strings. */
  predicate Less(a: string, b: string)
    decreases |a|
  {
    if |b| == 0 then false
    else if |a| == 0 then true
    else if a[0] != b[0] then a[0] < b[0]
    else Less(a[1..], b[1..])
  }

  lemma {:induction false} LessIrreflexive(a: string)
    ensures !Less(a, a)
    decreases |a|
  {
    if |a| > 0 {
      LessIrreflexive(a[1..]);
    }
  }

  lemma {:induction false} LessTransitive(a: string, b: string, c: string)
    requires Less(a, b) && Less(b, c)
    ensures Less(a, c)
    decreases |a|
  {
    if |a| > 0 && a[0] == b[0] && b[0] == c[0] {
      LessTransitive(a[1..], b[1..], c[1..]);
    }
  }

  /** Two different strings are always ordered one way or the other. */
  lemma {:induction false} LessConnected(a: string, b: string)
    requires a != b
    ensures Less(a, b) || Less(b, a)
    decreases |a|
  {
    if |a| > 0 && |b| > 0 && a[0] == b[0] {
      assert a == [a[0]] + a[1..] && b == [b[0]] + b[1..];
      LessConnected(a[1..], b[1..]);
    }
  }

  /** `parts.join(sep)`. */
  function Join(parts: seq<string>, sep: string): string
  {
    if |parts| == 0 then ""
    else if |parts| == 1 then parts[0]
    else parts[0] + sep + Join(parts[1..], sep)
  }

  /** Joining a concatenation puts one separator at the seam. */
  lemma {:induction false} JoinAppend(a: seq<string>, b: seq<string>, sep: string)
    requires |a| > 0 && |b| > 0
    ensures Join(a + b, sep) == Join(a, sep) + sep + Join(b, sep)
    decreases |a|
  {
    if |a| == 1 {
      assert (a + b)[1..] == b;
    } else {
      assert (a + b)[1..] == a[1..] + b;
      JoinAppend(a[1..], b, sep);
    }
  }

  /** `needle` occurs in `hay` starting at index `i`. */
  predicate OccursAt(hay: string, needle: string, i: int) {
    0 <= i && i + |needle| <= |hay| && hay[i..i + |needle|] == needle
  }

  /** `hay.includes(needle)`. */
  predicate Includes(hay: string, needle: string) {
    exists i | 0 <= i <= |hay| - |needle| :: OccursAt(hay, needle, i)
  }

  lemma IncludesMiddle(x: string, needle: string, y: string)
    ensures Includes(x + needle + y, needle)
  {
    var h := x + needle + y;
    assert h[|x|..|x| + |needle|] == needle;
    assert OccursAt(h, needle, |x|);
  }

  /** The joined form of a contiguous stretch of `parts` occurs inside the
      joined form of `parts`. */
  lemma JoinSliceIncluded(parts: seq<string>, i: int, j: int, sep: string)
    requires 0 <= i < j <= |parts|
    ensures Includes(Join(parts, sep), Join(parts[i..j], sep))
  {
    var mid := parts[i..j];
    var pre := parts[..i];
    var post := parts[j..];
    var x := if |pre| == 0 then "" else Join(pre, sep) + sep;
    var y := if |post| == 0 then "" else sep + Join(post, sep);
    assert parts == pre + mid + post;
    if |pre| > 0 {
      JoinAppend(pre, mid, sep);
      assert Join(pre + mid, sep) == x + Join(mid, sep);
    } else {
      assert pre + mid == mid;
    }
    if |post| > 0 {
      JoinAppend(pre + mid, post, sep);
    } else {
      assert pre + mid + post == pre + mid;
    }
    assert Join(parts, sep) == x + Join(mid, sep) + y;
    IncludesMiddle(x, Join(mid, sep), y);
  }
}
