/** calc_control_sum<uint16_t>: end-around-carry addition of 16-bit words in which zero is bumped
    to one.  It is the addition of section 1 of RFC 1071 without the final complement. */
module Checksum {
  import opened Values

  type word16 = w: int | 0 <= w < 0x1_0000

  /** One turn of the loop: wrapping addition, the carry added back, zero replaced by one. */
  function AddWord(sum: word16, d: word16): word16 {
    var wrapped := (sum + d) % 0x1_0000;
    var carried := if wrapped < d then (wrapped + 1) % 0x1_0000 else wrapped;
    if carried == 0 then 1 else carried
  }

  function ControlSum(words: seq<word16>, initial: word16): word16 {
    if words == [] then initial else AddWord(ControlSum(words[..|words| - 1], initial), words[|words| - 1])
  }

  /** The 16-bit words of a byte buffer on a little-endian host; an odd last byte belongs to none. */
  function Words(bs: seq<byte>): (ws: seq<word16>)
    ensures |ws| == |bs| / 2
  {
    seq(|bs| / 2, i requires 0 <= i < |bs| / 2 => bs[2 * i] as int + 0x100 * bs[2 * i + 1] as int)
  }

  method CalcControlSum(data: seq<byte>, initial: word16) returns (res: word16)
    ensures res == ControlSum(Words(data), initial)
  {
    res := initial;
    var size := |data| / 2;
    for i := 0 to size
      invariant res == ControlSum(Words(data)[..i], initial)
    {
      var d := data[2 * i] as int + 0x100 * data[2 * i + 1] as int;
      res := (res + d) % 0x1_0000;
      if res < d { res := (res + 1) % 0x1_0000; }
      if res == 0 { res := res + 1; }
      assert Words(data)[..i + 1][..i] == Words(data)[..i];
    }
    assert Words(data)[..size] == Words(data);
  }

  // ----- closed form -----

  function Total(words: seq<word16>): nat {
    if words == [] then 0 else Total(words[..|words| - 1]) + words[|words| - 1]
  }

  lemma AddWordModulo(sum: word16, d: word16, s: nat)
    requires sum != 0 && sum == (s - 1) % 0xFFFF + 1
    ensures AddWord(sum, d) == (s + d - 1) % 0xFFFF + 1
  {
    var q := (s - 1) / 0xFFFF;
    assert s - 1 == 0xFFFF * q + (sum - 1);
    assert s + d - 1 == 0xFFFF * q + (sum - 1 + d);
    if sum - 1 + d < 0xFFFF {
      ModuloIs(s + d - 1, q, sum - 1 + d);
    } else if sum - 1 + d < 0x1_FFFE {
      ModuloIs(s + d - 1, q + 1, sum - 1 + d - 0xFFFF);
    }
  }

  lemma ModuloIs(n: int, q: int, r: int)
    requires n == 0xFFFF * q + r && 0 <= r < 0xFFFF
    ensures n % 0xFFFF == r
  {
  }

  /** The sum of a buffer under a non-zero initial word, in one line. */
  lemma {:induction false} ClosedForm(words: seq<word16>, initial: word16)
    requires initial != 0
    ensures ControlSum(words, initial) == (initial + Total(words) - 1) % 0xFFFF + 1
    decreases |words|
  {
    if words != [] {
      var init := words[..|words| - 1];
      ClosedForm(init, initial);
      AddWordModulo(ControlSum(init, initial), words[|words| - 1], initial + Total(init));
    }
  }

  /** With a zero initial word the first word takes its place, a zero counted as one. */
  lemma {:induction false} ZeroInitial(words: seq<word16>)
    requires words != []
    ensures ControlSum(words, 0) == ControlSum(words[1..], if words[0] == 0 then 1 else words[0])
    decreases |words|
  {
    var init := words[..|words| - 1];
    if init == [] {
      assert words[1..] == [];
    } else {
      ZeroInitial(init);
      assert words[1..][..|words| - 2] == init[1..];
    }
  }

  /** Zero is returned for nothing but an empty buffer under a zero initial word. */
  lemma NeverZero(words: seq<word16>, initial: word16)
    ensures ControlSum(words, initial) == 0 <==> words == [] && initial == 0
  {
  }

  lemma {:induction false} TotalOfRemove(words: seq<word16>, i: nat)
    requires i < |words|
    ensures Total(words) == words[i] + Total(words[..i] + words[i + 1..])
    decreases |words|
  {
    var init, rest := words[..|words| - 1], words[..i] + words[i + 1..];
    if i == |words| - 1 {
      assert rest == init;
    } else {
      TotalOfRemove(init, i);
      assert rest[..|rest| - 1] == init[..i] + init[i + 1..];
      assert rest[|rest| - 1] == words[|words| - 1];
    }
  }

  lemma RemoveOccurrence(words: seq<word16>, i: nat)
    requires i < |words|
    ensures multiset(words[..i] + words[i + 1..]) == multiset(words) - multiset{words[i]}
  {
    assert words == words[..i] + [words[i]] + words[i + 1..];
  }

  lemma {:induction false} TotalOfPermutation(a: seq<word16>, b: seq<word16>)
    requires multiset(a) == multiset(b)
    ensures Total(a) == Total(b)
    decreases |a|
  {
    if a == [] {
      assert |multiset(b)| == 0;
    } else {
      assert a[0] in multiset(b);
      var i :| 0 <= i < |b| && b[i] == a[0];
      TotalOfRemove(a, 0);
      TotalOfRemove(b, i);
      RemoveOccurrence(a, 0);
      RemoveOccurrence(b, i);
      TotalOfPermutation(a[..0] + a[1..], b[..i] + b[i + 1..]);
    }
  }

  /** The sum does not see the order of the words. */
  lemma OrderBlind(a: seq<word16>, b: seq<word16>, initial: word16)
    requires initial != 0 && multiset(a) == multiset(b)
    ensures ControlSum(a, initial) == ControlSum(b, initial)
  {
    TotalOfPermutation(a, b);
    ClosedForm(a, initial);
    ClosedForm(b, initial);
  }

  lemma TotalOfUpdate(words: seq<word16>, i: nat, w: word16)
    requires i < |words|
    ensures Total(words[i := w]) - w == Total(words) - words[i]
  {
    TotalOfRemove(words, i);
    TotalOfRemove(words[i := w], i);
    assert words[i := w][..i] + words[i := w][i + 1..] == words[..i] + words[i + 1..];
  }

  lemma SameResidue(a: nat, b: nat, d: int)
    requires b == a + d && -0xFFFF <= d <= 0xFFFF
    ensures a % 0xFFFF == b % 0xFFFF <==> d == 0 || d == 0xFFFF || d == -0xFFFF
  {
    var qa, ra := a / 0xFFFF, a % 0xFFFF;
    if d == 0xFFFF { ModuloIs(b, qa + 1, ra); }
    if d == -0xFFFF { ModuloIs(b, qa - 1, ra); }
    if ra == b % 0xFFFF {
      assert d == 0xFFFF * (b / 0xFFFF - qa);
    }
  }

  /** A change of one word goes unnoticed exactly when it swaps 0x0000 and 0xFFFF. */
  lemma SingleWordChange(words: seq<word16>, initial: word16, i: nat, w: word16)
    requires initial != 0 && i < |words| && w != words[i]
    ensures ControlSum(words[i := w], initial) == ControlSum(words, initial) <==>
            (words[i] == 0 && w == 0xFFFF) || (words[i] == 0xFFFF && w == 0)
  {
    ClosedForm(words, initial);
    ClosedForm(words[i := w], initial);
    TotalOfUpdate(words, i, w);
    SameResidue(initial + Total(words) - 1, initial + Total(words[i := w]) - 1, w - words[i]);
  }

  /** The first word under a zero initial word. */
  lemma FirstWordChange(words: seq<word16>, w: word16)
    requires words != [] && w != words[0]
    ensures ControlSum(words[0 := w], 0) == ControlSum(words, 0) <==> {words[0], w} == {0, 1}
  {
    var rest := words[1..];
    assert words[0 := w][1..] == rest;
    ZeroInitial(words);
    ZeroInitial(words[0 := w]);
    var a, b := if words[0] == 0 then 1 else words[0], if w == 0 then 1 else w;
    ClosedForm(rest, a);
    ClosedForm(rest, b);
    SameResidue(a + Total(rest) - 1, b + Total(rest) - 1, b - a);
    assert {words[0], w} == {0, 1} <==> a == b by {
      assert words[0] in {words[0], w} && w in {words[0], w};
    }
  }

  /** A change of one word under any initial word goes unnoticed exactly when it swaps 0x0000 and 0xFFFF;
      where the word takes the place of a zero initial word, when it swaps 0x0000 and 0x0001. */
  lemma WordChangeIff(words: seq<word16>, initial: word16, i: nat, w: word16)
    requires i < |words| && w != words[i]
    ensures ControlSum(words[i := w], initial) == ControlSum(words, initial) <==>
            {words[i], w} == if initial == 0 && i == 0 then {0, 1} else {0, 0xFFFF}
  {
    if initial == 0 && i == 0 {
      FirstWordChange(words, w);
    } else if initial == 0 {
      var first := if words[0] == 0 then 1 else words[0];
      assert words[i := w][1..] == words[1..][i - 1 := w];
      ZeroInitial(words);
      ZeroInitial(words[i := w]);
      SingleWordChange(words[1..], first, i - 1, w);
      PairIs(words[i], w);
    } else {
      SingleWordChange(words, initial, i, w);
      PairIs(words[i], w);
    }
  }

  lemma PairIs(a: word16, b: word16)
    ensures {a, b} == {0, 0xFFFF} <==> (a == 0 && b == 0xFFFF) || (a == 0xFFFF && b == 0)
  {
    assert a in {a, b} && b in {a, b};
    if {a, b} == {0, 0xFFFF} { assert 0 in {a, b} && 0xFFFF in {a, b}; }
  }

  /** An odd last byte is not covered by the sum at all. */
  lemma LastOddByteUnseen(bs: seq<byte>, b: byte, initial: word16)
    requires |bs| % 2 == 1
    ensures ControlSum(Words(bs[|bs| - 1 := b]), initial) == ControlSum(Words(bs), initial)
  {
    assert Words(bs[|bs| - 1 := b]) == Words(bs);
  }
}
