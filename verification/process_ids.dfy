/**
 * Process identifiers: the two-character labels of main.c and the
 * comparison of sim_srt.h used as the deterministic tie-break.
 * Characters are bytes; the C `char` is taken to be signed, as on the
 * usual x86 and ARM Linux ABIs.
 */
module ProcessIds {

  /** A byte read through a signed `char`. */
  function SignedChar(c: char): int {
    var b := (c as int) % 256;
    if b >= 128 then b - 256 else b
  }

  /** `id[0]`; an empty C string reads as its NUL terminator. */
  function Lead(id: string): int {
    if |id| == 0 then 0 else SignedChar(id[0])
  }

  /** `&id[1]` as a string (empty when there is no second character). */
  function Suffix(id: string): string {
    if |id| == 0 then "" else id[1..]
  }

  predicate IsDigit(c: char) {
    '0' <= c <= '9'
  }

  /** Value of the decimal digits at the head of `s`, accumulated onto `acc`. */
  function DigitsFrom(s: string, acc: int): int
    decreases |s|
  {
    if |s| == 0 || !IsDigit(s[0]) then acc
    else DigitsFrom(s[1..], acc * 10 + (s[0] as int - '0' as int))
  }

  /** `atoi` on a string that starts with its digits (no blanks or sign). */
  function Atoi(s: string): int {
    DigitsFrom(s, 0)
  }

  /** The numeric part of an id, as `compare_process_ids` reads it. */
  function Number(id: string): int {
    Atoi(Suffix(id))
  }

  /**
   * `compare_process_ids`: the difference of the first characters when they
   * differ, otherwise the difference of the numeric suffixes.
   */
  function CompareIds(a: string, b: string): (r: int)
    ensures r == 0 <==> Lead(a) == Lead(b) && Number(a) == Number(b)
    ensures r < 0 <==> Lead(a) < Lead(b) || (Lead(a) == Lead(b) && Number(a) < Number(b))
  {
    if Lead(a) != Lead(b) then Lead(a) - Lead(b)
    else Number(a) - Number(b)
  }

  lemma CompareIdsReflexive(a: string)
    ensures CompareIds(a, a) == 0
  {
  }

  /** Swapping the arguments negates the result exactly. */
  lemma CompareIdsAntisymmetric(a: string, b: string)
    ensures CompareIds(a, b) == -CompareIds(b, a)
  {
  }

  lemma CompareIdsTransitive(a: string, b: string, c: string)
    requires CompareIds(a, b) < 0 && CompareIds(b, c) < 0
    ensures CompareIds(a, c) < 0
  {
  }

  /** The label main.c gives to process `i`: letter byte, then digit. */
  function IdOf(i: nat): (id: string)
    ensures |id| == 2
  {
    [((65 + i / 10) % 256) as char, (48 + i % 10) as char]
  }

  /**
   * `assignProcessIDs`: a letter starting at 'A' and a digit counter that
   * wraps from 9 to 0 and then advances the letter. The letter is a C
   * `char`, so only its low byte reaches the string.
   */
  method AssignProcessIds(n: int) returns (ids: seq<string>)
    ensures |ids| == if n < 0 then 0 else n
    ensures forall i :: 0 <= i < |ids| ==> ids[i] == IdOf(i)
  {
    ids := [];
    var letter := 65;
    var num := 0;
    var i := 0;
    while i < n
      invariant 0 <= i <= (if n < 0 then 0 else n) && |ids| == i
      invariant letter == 65 + i / 10 && num == i % 10
      invariant forall k :: 0 <= k < i ==> ids[k] == IdOf(k)
    {
      ids := ids + [[(letter % 256) as char, (num + 48) as char]];
      num := num + 1;
      if num == 10 {
        letter := letter + 1;
        num := 0;
      }
      i := i + 1;
    }
  }

  lemma IdOfFields(i: nat)
    requires i < 630
    ensures Lead(IdOf(i)) == 65 + i / 10
    ensures Number(IdOf(i)) == i % 10
  {
    var id := IdOf(i);
    assert Suffix(id) == [(48 + i % 10) as char];
    assert DigitsFrom(Suffix(id)[1..], i % 10) == i % 10;
  }

  /**
   * While the letter stays within 7-bit ASCII (fewer than 630 processes),
   * the generated ids are ordered by `compare_process_ids` exactly as their
   * indices are, and so are pairwise distinct.
   */
  lemma IdsFollowIndexOrder(i: nat, j: nat)
    requires i < j < 630
    ensures CompareIds(IdOf(i), IdOf(j)) < 0
    ensures IdOf(i) != IdOf(j)
  {
    IdOfFields(i);
    IdOfFields(j);
    if i / 10 == j / 10 {
      assert i % 10 < j % 10;
    }
  }

  /**
   * The letter byte takes 256 values, so the ids of the first 2560
   * processes are pairwise distinct...
   */
  lemma IdsDistinctBelow2560(i: nat, j: nat)
    requires i < j < 2560
    ensures IdOf(i) != IdOf(j)
  {
    if i / 10 == j / 10 {
      assert IdOf(i)[1] != IdOf(j)[1];
    } else {
      assert IdOf(i)[0] != IdOf(j)[0];
    }
  }

  /** ...and from then on they repeat: process `i + 2560` gets the id of process `i`. */
  lemma IdsRepeatEvery2560(i: nat)
    ensures IdOf(i + 2560) == IdOf(i)
  {
    assert (i + 2560) / 10 == i / 10 + 256;
    assert (65 + (i + 2560) / 10) % 256 == (65 + i / 10) % 256;
  }

  /**
   * The C string a byte buffer holds: the bytes before the first NUL, or
   * the whole buffer when it has none.
   */
  function CString(buf: string): (s: string)
    ensures |s| <= |buf| && s == buf[..|s|]
    ensures '\0' !in s
    ensures |s| < |buf| ==> buf[|s|] == '\0'
    decreases |buf|
  {
    if |buf| == 0 || buf[0] == '\0' then "" else [buf[0]] + CString(buf[1..])
  }

  /** A buffer without a NUL is its own C string. */
  lemma {:induction false} CStringOfNulFree(buf: string)
    requires '\0' !in buf
    ensures CString(buf) == buf
    decreases |buf|
  {
    if |buf| > 0 {
      assert buf[0] != '\0';
      CStringOfNulFree(buf[1..]);
      assert buf == [buf[0]] + buf[1..];
    }
  }

  /**
   * `snprintf(p.id, sizeof(p.id), "%s", id)` into the three-byte id field:
   * the C string in `buf`, cut to two characters to leave room for the NUL.
   */
  function CopyId(buf: string): (id: string)
    ensures |id| <= 2 && '\0' !in id
    ensures |id| <= |CString(buf)| && id == CString(buf)[..|id|]
    ensures |CString(buf)| <= 2 ==> id == CString(buf)
  {
    var s := CString(buf);
    if |s| <= 2 then s else s[..2]
  }

  /**
   * The letter byte of process `i`'s label wraps to NUL exactly for the ten
   * processes 1910 to 1919 among the first 2560 ('A' + 191 is 256).
   */
  lemma IdLeadIsNulExactly(i: nat)
    requires i < 2560
    ensures IdOf(i)[0] == '\0' <==> 1910 <= i < 1920
  {
  }

  /**
   * What the process record holds for the first 1910 processes is the
   * full label, and those records are pairwise distinct as C strings.
   */
  lemma CopiedIdsDistinctBelow1910(i: nat, j: nat)
    requires i < j < 1910
    ensures CopyId(IdOf(i)) == IdOf(i) && CopyId(IdOf(j)) == IdOf(j)
    ensures CString(CopyId(IdOf(i))) != CString(CopyId(IdOf(j)))
  {
    IdLeadIsNulExactly(i);
    IdLeadIsNulExactly(j);
    CStringOfNulFree(IdOf(i));
    CStringOfNulFree(IdOf(j));
    IdsDistinctBelow2560(i, j);
  }

  /** Processes 1910 to 1919 all get the empty string as their id. */
  lemma CopiedIdsCollapseFrom1910(i: nat)
    requires 1910 <= i < 1920
    ensures CopyId(IdOf(i)) == ""
  {
    IdLeadIsNulExactly(i);
  }

  /** The ids `generate_process` stores for the labels of `assignProcessIDs`. */
  predicate GeneratedIds(ids: seq<string>) {
    forall k :: 0 <= k < |ids| ==> ids[k] == CopyId(IdOf(k))
  }

  /** With at most 1910 processes the stored ids are distinct C strings. */
  lemma GeneratedIdsDistinct(ids: seq<string>)
    requires GeneratedIds(ids) && |ids| <= 1910
    ensures forall a, b :: 0 <= a < b < |ids| ==> CString(ids[a]) != CString(ids[b])
  {
    forall a, b | 0 <= a < b < |ids|
      ensures CString(ids[a]) != CString(ids[b])
    {
      CopiedIdsDistinctBelow1910(a, b);
    }
  }

  /**
   * `get_process_index`: the first index whose id is the same C string as
   * `id` (`strcmp(...) == 0`), or -1 when there is none.
   */
  function IndexOf(ids: seq<string>, id: string): (r: int)
    ensures -1 <= r < |ids|
    ensures r == -1 <==> forall k :: 0 <= k < |ids| ==> CString(ids[k]) != CString(id)
    ensures r >= 0 ==> CString(ids[r]) == CString(id) && forall k :: 0 <= k < r ==> CString(ids[k]) != CString(id)
  {
    IndexFrom(ids, id, 0)
  }

  function IndexFrom(ids: seq<string>, id: string, from: nat): (r: int)
    requires from <= |ids|
    ensures -1 <= r < |ids|
    ensures r == -1 <==> forall k :: from <= k < |ids| ==> CString(ids[k]) != CString(id)
    ensures r >= 0 ==>
      && from <= r && CString(ids[r]) == CString(id)
      && forall k :: from <= k < r ==> CString(ids[k]) != CString(id)
    decreases |ids| - from
  {
    if from == |ids| then -1
    else if CString(ids[from]) == CString(id) then from
    else IndexFrom(ids, id, from + 1)
  }

  /** With ids distinct as C strings the lookup recovers the index itself. */
  lemma IndexOfDistinct(ids: seq<string>, i: nat)
    requires i < |ids|
    requires forall a, b :: 0 <= a < b < |ids| ==> CString(ids[a]) != CString(ids[b])
    ensures IndexOf(ids, ids[i]) == i
  {
  }

  /**
   * From 1912 processes on, the lookup of process 1911 by its stored id
   * finds process 1910: both ids are the empty string.
   */
  lemma LookupCollapsesFrom1911(ids: seq<string>)
    requires GeneratedIds(ids) && |ids| >= 1912
    ensures IndexOf(ids, ids[1911]) == 1910
  {
    CopiedIdsCollapseFrom1910(1910);
    CopiedIdsCollapseFrom1910(1911);
    forall k | 0 <= k < 1910
      ensures CString(ids[k]) != CString(ids[1911])
    {
      IdLeadIsNulExactly(k);
    }
  }
}
