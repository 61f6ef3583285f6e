/** Char buffers, as `malloc`, `strcpy`, `strlen` and pointer writes see them. */
module Buffers {
  import opened Bytes

  /** The buffer starts with `text`. */
  ghost predicate Wrote(out: array<byte>, text: bytes)
    reads out
  {
    |text| <= out.Length && forall i :: 0 <= i < |text| ==> out[i] == text[i]
  }

  /** The buffer starts with `text` and a terminator. */
  ghost predicate Terminated(out: array<byte>, text: bytes)
    reads out
  {
    Wrote(out, text) && |text| < out.Length && out[|text|] == 0
  }

  /** From `i` on, the array still holds the rest of the C string `s`. */
  ghost predicate Unread(a: array<byte>, i: nat, s: bytes)
    reads a
  {
    i <= |s| < a.Length && a[|s|] == 0 && NoNul(s) && forall j :: i <= j < |s| ==> a[j] == s[j]
  }

  /** `memcpy(out + ptr, src, |src|)`, behind what is already there. */
  method Put(out: array<byte>, ptr: nat, src: bytes, ghost pre: bytes)
    requires ptr == |pre| && Wrote(out, pre) && ptr + |src| <= out.Length
    modifies out
    ensures Wrote(out, pre + src)
    ensures forall i :: ptr + |src| <= i < out.Length ==> out[i] == old(out[i])
  {
    var j := 0;
    while j < |src|
      invariant 0 <= j <= |src| && Wrote(out, pre)
      invariant forall i :: ptr <= i < ptr + j ==> out[i] == src[i - ptr]
      invariant forall i :: ptr + |src| <= i < out.Length ==> out[i] == old(out[i])
    {
      out[ptr + j] := src[j];
      j := j + 1;
    }
  }

  /** `strcpy(out + ptr, src)` */
  method PutString(out: array<byte>, ptr: nat, src: bytes, ghost pre: bytes)
    requires ptr == |pre| && Wrote(out, pre) && ptr + |src| < out.Length
    modifies out
    ensures Terminated(out, pre + src)
  {
    Put(out, ptr, src, pre);
    out[ptr + |src|] := 0;
  }

  /** `for (i = 0; i < n; i++) *ptr++ = '\t'` */
  method PutTabs(out: array<byte>, ptr: nat, n: int, ghost pre: bytes) returns (ptr': nat)
    requires ptr == |pre| && Wrote(out, pre) && ptr + (if n < 0 then 0 else n) <= out.Length
    modifies out
    ensures ptr' == |pre + Repeat(TAB, if n < 0 then 0 else n)| && Wrote(out, pre + Repeat(TAB, if n < 0 then 0 else n))
  {
    ptr' := ptr;
    var i := 0;
    while i < n
      invariant 0 <= i && (n >= 0 ==> i <= n) && (n < 0 ==> i == 0) && ptr' == ptr + i && Wrote(out, pre)
      invariant forall j :: ptr <= j < ptr' ==> out[j] == TAB
    {
      out[ptr'] := TAB;
      i, ptr' := i + 1, ptr' + 1;
    }
  }

  /** `strlen(out + from)` */
  method StringLength(out: array<byte>, from: nat, ghost text: bytes) returns (n: nat)
    requires from <= |text| && Terminated(out, text)
    requires forall i :: from <= i < |text| ==> text[i] != 0
    ensures from + n == |text|
  {
    n := 0;
    while out[from + n] != 0
      invariant from + n <= |text|
      decreases |text| - n
    {
      n := n + 1;
    }
  }
}
