/**
 * The keyword scanner of the second UART of the L432KC board: it finds the
 * command keyword that occurs first in the received text, shifts what follows
 * it to the front of the receive buffer and clears the rest.
 */
module ComUtilsUart2 {
  import opened Wrappers
  import opened CStrings

  const MainBufSize: nat := 1024

  /** `SIZE_MAX` of the 32-bit target, the initial closest position. */
  const SizeMax: nat := 0xFFFF_FFFF

  /** The keywords, in the order in which they are tried. */
  const Keywords: seq<string> := [
    "eversionR", "eversionL", "dorsiflexionU", "dorsiflexionD", "extensionU", "extensionD",
    "motor1H", "motor1AH", "motor2H", "motor2AH", "motor3H", "motor3AH",
    "goHome1", "goHome2", "goHome3", "goHome", "setHome"]

  predicate OccursAt(text: seq<char>, word: seq<char>, p: nat) {
    p + |word| <= |text| && text[p..p + |word|] == word
  }

  /** The first position at or after `from` where `word` occurs in `text`. */
  function FindFrom(text: seq<char>, word: seq<char>, from: nat): (r: Option<nat>)
    requires from <= |text|
    ensures r.Some? ==> from <= r.value && OccursAt(text, word, r.value)
    ensures r.Some? ==> forall q: nat :: from <= q < r.value ==> !OccursAt(text, word, q)
    ensures r.None? ==> forall q: nat :: from <= q ==> !OccursAt(text, word, q)
    decreases |text| - from
  {
    if OccursAt(text, word, from) then Some(from)
    else if from == |text| then None
    else FindFrom(text, word, from + 1)
  }

  /** `strstr(text, word) - text`, or None for NULL. */
  function Find(text: seq<char>, word: seq<char>): Option<nat>
  {
    FindFrom(text, word, 0)
  }

  /** No keyword of `table` occurs in `text`. */
  ghost predicate NoKeyword(table: seq<string>, text: seq<char>) {
    forall j :: 0 <= j < |table| ==> Find(text, table[j]).None?
  }

  /**
   * Keyword k of `table`, first found at p, is the pick: no keyword occurs
   * earlier, and every keyword before k in the table first occurs strictly later.
   */
  ghost predicate IsClosest(table: seq<string>, text: seq<char>, k: nat, p: nat) {
    && k < |table|
    && Find(text, table[k]) == Some(p)
    && (forall j :: 0 <= j < |table| && Find(text, table[j]).Some? ==> p <= Find(text, table[j]).value)
    && (forall j :: 0 <= j < k && Find(text, table[j]).Some? ==> p < Find(text, table[j]).value)
  }

  /**
   * The search loop of `searchWord` over a keyword table (`Keywords` in the
   * firmware): the table index of the closest keyword and its position.
   */
  method ClosestWord(text: seq<char>, table: seq<string>) returns (closest: Option<nat>, closestPosition: nat)
    requires |text| < SizeMax
    ensures closest.None? <==> NoKeyword(table, text)
    ensures closest.None? ==> closestPosition == SizeMax
    ensures closest.Some? ==> IsClosest(table, text, closest.value, closestPosition)
  {
    closest, closestPosition := None, SizeMax;
    for i := 0 to |table|
      invariant closest.None? <==> forall j :: 0 <= j < i ==> Find(text, table[j]).None?
      invariant closest.None? ==> closestPosition == SizeMax
      invariant closest.Some? ==> closest.value < i && Find(text, table[closest.value]) == Some(closestPosition)
      invariant closest.Some? ==> forall j :: 0 <= j < i && Find(text, table[j]).Some? ==>
                  closestPosition <= Find(text, table[j]).value
      invariant closest.Some? ==> forall j :: 0 <= j < closest.value && Find(text, table[j]).Some? ==>
                  closestPosition < Find(text, table[j]).value
    {
      var pos := Find(text, table[i]);
      if pos.Some? {
        var position := pos.value;
        if position < closestPosition {
          closestPosition := position;
          closest := Some(i);
        }
      }
    }
  }

  /** The pick is unique: the search result is determined by the text. */
  lemma ClosestUnique(text: seq<char>, k1: nat, p1: nat, k2: nat, p2: nat)
    requires IsClosest(Keywords, text, k1, p1) && IsClosest(Keywords, text, k2, p2)
    ensures k1 == k2 && p1 == p2
  {
  }

  /**
   * A text starting with `goHome1` picks `goHome1` (entry 12) and not the
   * shorter `goHome` (entry 15) found at the same place.
   */
  lemma GoHome1BeatsGoHome(text: seq<char>)
    requires |text| >= 7 && text[..7] == "goHome1"
    ensures IsClosest(Keywords, text, 12, 0)
    ensures !IsClosest(Keywords, text, 15, 0)
  {
    assert OccursAt(text, Keywords[12], 0);
    assert OccursAt(text, Keywords[15], 0) by {
      assert text[..6] == text[..7][..6];
    }
    forall j | 0 <= j < 12 && Find(text, Keywords[j]).Some? ensures 0 < Find(text, Keywords[j]).value {
      assert Keywords[j][0] != 'g';
    }
  }

  /** The buffer after a match: the text after the keyword, zeros for the vacated tail, the rest untouched. */
  function Compacted(s: seq<char>, len: nat, after: nat): seq<char>
    requires after <= len <= |s|
  {
    s[after..len] + Zeros(after) + s[len..]
  }

  /** The buffer when no keyword occurs: the string zeroed, the rest untouched. */
  function Cleared(s: seq<char>, len: nat): seq<char>
    requires len <= |s|
  {
    Zeros(len) + s[len..]
  }

  /**
   * After a match the new string is the old text after the keyword, never
   * longer than the old one; the bytes from its end up to the old end are
   * zero, and the bytes past the old end do not change.
   */
  lemma CompactedShape(s: seq<char>, after: nat)
    requires Nul in s && after <= |CString(s)|
    ensures var len, r := |CString(s)|, Compacted(s, |CString(s)|, after);
      && |r| == |s|
      && r[..len - after] == s[after..len]
      && (forall i :: len - after <= i < len ==> r[i] == Nul)
      && r[len..] == s[len..]
      && CString(r) == s[after..len]
      && |CString(r)| <= len
  {
    var len, r := |CString(s)|, Compacted(s, |CString(s)|, after);
    assert s[len] == Nul;
    assert Nul !in s[after..len];
    if after > 0 {
      assert r == s[after..len] + [Nul] + (Zeros(after - 1) + s[len..]);
      CStringOfTerminated(s[after..len], Zeros(after - 1) + s[len..]);
    } else {
      assert r == s[after..len] + [Nul] + s[len + 1..];
      CStringOfTerminated(s[after..len], s[len + 1..]);
    }
  }

  /** With no keyword, the whole string is zeroed and nothing past it changes. */
  lemma ClearedShape(s: seq<char>)
    requires Nul in s
    ensures var len, r := |CString(s)|, Cleared(s, |CString(s)|);
      && |r| == |s|
      && (forall i :: 0 <= i < len ==> r[i] == Nul)
      && r[len..] == s[len..]
      && CString(r) == []
  {
    var len := |CString(s)|;
    assert s[len] == Nul;
  }

  /** The text after position `after` of a C string, as `strlen(buffer + after)` measures it. */
  lemma CStringSuffix(s: seq<char>, after: nat)
    requires Nul in s && after <= |CString(s)|
    ensures CString(s[after..]) == s[after..|CString(s)|]
  {
    var len := |CString(s)|;
    assert s[after..] == s[after..len] + [Nul] + s[len + 1..];
    CStringOfTerminated(s[after..len], s[len + 1..]);
  }

  /** The move to the front followed by the zeroing of `after` bytes leaves the compacted buffer. */
  lemma MoveThenClear(s: seq<char>, len: nat, after: nat, moved: seq<char>, cleared: seq<char>)
    requires after <= len <= |s|
    requires moved == s[after..len] + s[len - after..]
    requires cleared == moved[..len - after] + Zeros(after) + moved[len..]
    ensures cleared == Compacted(s, len, after)
  {
    assert moved[..len - after] == s[after..len];
    assert moved[len..] == s[len..];
  }

  /** `memmove(dst, src + from, count)` where `dst` and `src` are the same buffer. */
  method MemMove(dst: array<char>, src: array<char>, from: nat, count: nat)
    requires dst == src && from + count <= dst.Length
    modifies dst
    ensures dst[..] == old(src[from..from + count]) + old(dst[count..])
  {
    ghost var s := dst[..];
    var i := 0;
    while i < count
      invariant 0 <= i <= count
      invariant forall k :: 0 <= k < i ==> dst[k] == s[from + k]
      invariant forall k :: i <= k < dst.Length ==> dst[k] == s[k]
    {
      dst[i] := src[from + i];
      i := i + 1;
    }
    assert dst[..] == s[from..from + count] + s[count..];
  }

  /** `memset(a + start, 0, count)`. */
  method MemSet(a: array<char>, start: nat, count: nat)
    requires start + count <= a.Length
    modifies a
    ensures a[..] == old(a[..start]) + Zeros(count) + old(a[start + count..])
  {
    ghost var s := a[..];
    var i := start;
    while i < start + count
      invariant start <= i <= start + count
      invariant forall k :: 0 <= k < start ==> a[k] == s[k]
      invariant forall k :: start <= k < i ==> a[k] == Nul
      invariant forall k :: i <= k < a.Length ==> a[k] == s[k]
    {
      a[i] := Nul;
      i := i + 1;
    }
    assert a[..] == s[..start] + Zeros(count) + s[start + count..];
  }

  /**
   * The match branch of `searchWord`: the string after position `after` is
   * moved to the front of the buffer and the `after` bytes behind it are
   * zeroed; the result is the length of the moved string.
   */
  method CompactFrom(buf: array<char>, after: nat) returns (afterLength: nat)
    requires Nul in buf[..] && after <= |CString(buf[..])|
    modifies buf
    ensures var s := old(buf[..]);
      && buf[..] == Compacted(s, |CString(s)|, after)
      && afterLength == |CString(s)| - after
  {
    ghost var s := buf[..];
    ghost var len := |CString(s)|;
    CStringSuffix(s, after);
    afterLength := |CString(buf[after..])|;
    assert afterLength == len - after;
    MemMove(buf, buf, after, afterLength);
    ghost var moved := buf[..];
    assert moved == s[after..len] + s[len - after..];
    MemSet(buf, afterLength, after);
    assert buf[..] == moved[..len - after] + Zeros(after) + moved[len..];
    MoveThenClear(s, len, after, moved, buf[..]);
  }

  /**
   * The body of `searchWord` over a keyword table and the buffer it works in:
   * the closest keyword, with the text after it moved to the front and the
   * vacated bytes zeroed, or no keyword and the string cleared. `newLength`
   * is the length of the moved text, the new write position.
   */
  method CompactAfterClosest(buf: array<char>, table: seq<string>) returns (word: Option<string>, newLength: nat)
    requires Nul in buf[..] && buf.Length < SizeMax
    modifies buf
    ensures var s := old(buf[..]); var text := CString(s);
      && (word.None? <==> NoKeyword(table, text))
      && (word.None? ==> buf[..] == Cleared(s, |text|) && newLength == 0)
      && (word.Some? ==> exists k: nat, p: nat :: IsClosest(table, text, k, p) && word.value == table[k]
                           && buf[..] == Compacted(s, |text|, p + |table[k]|)
                           && newLength == |text| - (p + |table[k]|))
  {
    var text := CString(buf[..]);
    var closest, closestPosition := ClosestWord(text, table);
    if closest.Some? {
      var closestWord := table[closest.value];
      ghost var k, p := closest.value, closestPosition;
      assert OccursAt(text, closestWord, p);
      newLength := CompactFrom(buf, closestPosition + |closestWord|);
      word := Some(closestWord);
      assert IsClosest(table, text, k, p) && word.value == table[k];
    } else {
      MemSet(buf, 0, |text|);
      word, newLength := None, 0;
    }
  }

  /** The receive side of UART2: the DMA main buffer and the write position. */
  class Uart2 {
    var mainBuf: array<char>
    var newPos: nat

    ghost predicate Valid()
      reads this
    {
      mainBuf.Length == MainBufSize
    }

    /** The zero-initialised globals. */
    constructor ()
      ensures Valid() && fresh(mainBuf)
      ensures mainBuf[..] == Zeros(MainBufSize) && newPos == 0
    {
      mainBuf := new char[MainBufSize](_ => Nul);
      newPos := 0;
    }

    /**
     * `searchWord`: returns the closest keyword, moves the text after it to the
     * front of the buffer and zeroes the vacated bytes; with no keyword it
     * clears the string. The text is moved out of `mainBuf`, so the argument
     * must be that buffer.
     */
    method SearchWord(bufferToCopyFrom: array<char>) returns (word: Option<string>)
      requires Valid() && bufferToCopyFrom == mainBuf
      requires Nul in mainBuf[..]
      modifies mainBuf, this`newPos
      ensures Valid()
      ensures var s := old(mainBuf[..]); var text := CString(s);
        && (word.None? <==> NoKeyword(Keywords, text))
        && (word.None? ==> mainBuf[..] == Cleared(s, |text|) && newPos == 0)
        && (word.Some? ==> exists k: nat, p: nat :: IsClosest(Keywords, text, k, p) && word.value == Keywords[k]
                             && mainBuf[..] == Compacted(s, |text|, p + |Keywords[k]|)
                             && newPos == |text| - (p + |Keywords[k]|))
    {
      // the source of the move is the global buffer, which the argument aliases
      word, newPos := CompactAfterClosest(bufferToCopyFrom, Keywords);
    }
  }
}
