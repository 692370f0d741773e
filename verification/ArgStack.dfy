/** userprog/process.c: how process_exec splits the command line and lays the words out on the user stack. */
module ArgStack {
  import opened Strings
  import opened Sequences

  // ---------- splitting ----------

  /** The words found so far are strings at the first pointers of parse. */
  ghost predicate Found(m: seq<char>, parse: seq<nat>, words: seq<string>, before: nat) {
    && |words| <= |parse|
    && forall i :: 0 <= i < |words| ==> IsStr(m, parse[i], words[i]) && parse[i] + |words[i]| <= before
  }

  lemma {:induction false} FoundStays(m: seq<char>, m': seq<char>, parse: seq<nat>, words: seq<string>, s: nat)
    requires Found(m, parse, words, s) && OnlyCut(m, m', s)
    ensures Found(m', parse, words, s)
  {
    forall i | 0 <= i < |words| ensures IsStr(m', parse[i], words[i]) { StrStays(m, m', s, parse[i], words[i]); }
  }

  /** The state of the token loop: "count" words are found, the next one is at "token" and the others are in "left". */
  ghost predicate Splitting(m: seq<char>, parse: seq<nat>, words: seq<string>, count: nat, token: Option<nat>,
      save: nat, left: string, n: nat) {
    && count <= |words| && IsStr(m, save, left) && save + |left| == n && Found(m, parse, words[..count], save)
    && if count == |words| then token.None?
       else token.Some? && IsStr(m, token.value, words[count]) && token.value + |words[count]| <= save
            && Words(left, " ") == words[count + 1..]
  }

  lemma {:induction false} SplitStart(m: seq<char>, m': seq<char>, parse: seq<nat>, t: string, words: seq<string>,
                                      token: Option<nat>, save: nat, left: string)
    requires Tokenized(m, m', 0, t, " ", token, save, left) && words == Words(t, " ")
    ensures Splitting(m', parse, words, 0, token, save, left, |t|)
  {
  }

  lemma {:induction false} SplitStep(m: seq<char>, m': seq<char>, parse: seq<nat>, words: seq<string>, count: nat,
      token: Option<nat>, save: nat,
                  left: string, n: nat, token': Option<nat>, save': nat, left': string)
    requires Splitting(m, parse, words, count, token, save, left, n) && token.Some? && count < |parse|
    requires Tokenized(m, m', save, left, " ", token', save', left')
    ensures Splitting(m', parse[count := token.value], words, count + 1, token', save', left', n)
  {
    var parse' := parse[count := token.value];
    assert words[..count + 1] == words[..count] + [words[count]];
    assert Found(m, parse', words[..count + 1], save);
    FoundStays(m, m', parse', words[..count + 1], save);
  }

  /** The token loop of process_exec, for a command line of at most 64 words: parse has no room for more. */
  method Split(line: array<char>, ghost t: string, ghost words: seq<string>) returns (parse: array<nat>, count: nat)
    requires IsStr(line[..], 0, t) && words == Words(t, " ") && |words| <= 64
    modifies line
    ensures fresh(parse) && parse.Length == 64 && count == |words| && Found(line[..], parse[..], words, |t|)
  {
    parse := new nat[64](_ => 0);
    count := 0;
    ghost var m0 := line[..];
    var token, save, left := StrTok(line, 0, " ", t);
    SplitStart(m0, line[..], parse[..], t, words, token, save, left);
    while token.Some?
      invariant Splitting(line[..], parse[..], words, count, token, save, left, |t|)
      decreases |words| - count
    {
      ghost var (m, found, token0, save0, left0) := (line[..], parse[..], token, save, left);
      parse[count] := token.value;
      token, save, left := StrTok(line, save, " ", left);
      SplitStep(m, line[..], found, words, count, token0, save0, left0, |t|, token, save, left);
      count := count + 1;
    }
    assert words[..count] == words;
  }

  // ---------- the stack ----------

  /** The low "n" bytes of a value, lowest first. */
  function BytesOf(v: nat, n: nat): (r: seq<char>)
    ensures |r| == n
  {
    if n == 0 then [] else [(v % 256) as char] + BytesOf(v / 256, n - 1)
  }

  /** The value of the bytes in memory from "a" to "b", lowest first. */
  ghost function ValueAt(m: seq<char>, a: nat, b: nat): nat
    requires a <= b <= |m|
    decreases b - a
  {
    if a == b then 0 else m[a] as int + 256 * ValueAt(m, a + 1, b)
  }

  function Limit256(n: nat): nat {
    if n == 0 then 1 else 256 * Limit256(n - 1)
  }

  lemma {:induction false} ValueOfBytes(m: seq<char>, a: nat, v: nat, n: nat)
    requires a + n <= |m| && v < Limit256(n) && forall i :: 0 <= i < n ==> m[a + i] == BytesOf(v, n)[i]
    ensures ValueAt(m, a, a + n) == v
    decreases n
  {
    if n > 0 {
      assert m[a + 0] == BytesOf(v, n)[0];
      var rest := BytesOf(v / 256, n - 1);
      forall i | 0 <= i < n - 1 ensures m[a + 1 + i] == rest[i] { assert m[a + (i + 1)] == BytesOf(v, n)[i + 1]; }
      ValueOfBytes(m, a + 1, v / 256, n - 1);
    }
  }

  lemma {:induction false} ValueStays(m: seq<char>, m': seq<char>, a: nat, b: nat)
    requires a <= b <= |m| == |m'| && forall i :: a <= i < b ==> m'[i] == m[i]
    ensures ValueAt(m', a, b) == ValueAt(m, a, b)
    decreases b - a
  {
    if a < b { ValueStays(m, m', a + 1, b); }
  }

  /** The 8-byte word at an address. */
  ghost function WordAt(m: seq<char>, a: nat): nat
    requires a + 8 <= |m|
  {
    ValueAt(m, a, a + 8)
  }

  /** How much room the words take, each with its terminator. */
  function Size(words: seq<string>): nat {
    if words == [] then 0 else |words[0]| + 1 + Size(words[1..])
  }

  lemma {:induction false} SizeFrom(words: seq<string>, i: nat)
    requires i < |words|
    ensures Size(words[i..]) == |words[i]| + 1 + Size(words[i + 1..])
  {
    assert words[i..][1..] == words[i + 1..];
  }

  /** Where word "i" goes when the words end at "top". */
  ghost function Address(words: seq<string>, i: nat, top: nat): int
    requires i <= |words|
  {
    top - Size(words[i..])
  }

  /** Words "i" and on are strings one after the other below "top", and argv points to them. */
  ghost predicate Stored(m: seq<char>, argv: seq<nat>, words: seq<string>, i: nat, top: nat) {
    && i <= |words| <= |argv|
    && forall k {:trigger argv[k]} :: i <= k < |words| ==>
      argv[k] == Address(words, k, top) && IsStr(m, argv[k], words[k])
  }

  /** Pointers "i" and on, and the null that ends argv, are in memory from "a" on. */
  ghost predicate Pointed(m: seq<char>, argv: seq<nat>, argc: nat, i: nat, a: int) {
    && i <= argc <= |argv| && 0 <= a && a + 8 * (argc - i + 1) <= |m|
    && WordAt(m, a + 8 * (argc - i)) == 0
    && forall k :: i <= k < argc ==> WordAt(m, a + 8 * (k - i)) == argv[k]
  }

  /** (int) rsp % 8, the remainder of a 32-bit int as C takes it. */
  function Padding(rsp: nat): int {
    var low := rsp % 0x1_0000_0000;
    if low < 0x8000_0000 then low % 8 else -((0x1_0000_0000 - low) % 8)
  }

  ghost function Max(a: int, b: int): int { if a < b then b else a }

  /** Where rsp ends up. */
  ghost function FinalRsp(words: seq<string>, top: nat): int {
    var a := top - Size(words);
    a - (if a < 0 then 0 else Max(0, Padding(a))) - 8 * (|words| + 2)
  }

  /** Memory as the program finds it: argc words at the pointers that start at rsp + 8, a null after them, a null
      return address at rsp, and the strings above the pointers. */
  ghost predicate ArgvAt(m: seq<char>, rsp: nat, words: seq<string>) {
    && rsp + 8 * (|words| + 2) <= |m| && WordAt(m, rsp) == 0 && WordAt(m, rsp + 8 + 8 * |words|) == 0
    && forall i :: 0 <= i < |words| ==> ArgAt(m, rsp, |words|, i, words[i])
  }

  /** Argument "i" of "argc" is the word, above the pointers. */
  ghost predicate ArgAt(m: seq<char>, rsp: nat, argc: nat, i: nat, word: string) {
    && rsp + 8 + 8 * i + 8 <= |m| && IsStr(m, WordAt(m, rsp + 8 + 8 * i), word)
    && WordAt(m, rsp + 8 + 8 * i) >= rsp + 8 * (argc + 2)
  }

  /** The padding aligns the stack exactly when the address, taken as an int, is not negative or needs none. */
  lemma PaddingAligns(a: nat)
    ensures (a - Max(0, Padding(a))) % 8 == 0 <==> a % 0x1_0000_0000 < 0x8000_0000 || a % 8 == 0
  {
    var low := a % 0x1_0000_0000;
    assert a % 8 == low % 8 by { LowBits(a / 0x1_0000_0000, low); }
  }

  lemma LowBits(high: nat, low: nat)
    ensures (0x1_0000_0000 * high + low) % 8 == low % 8
  {
    assert 0x1_0000_0000 * high + low == 8 * (0x2000_0000 * high) + low;
  }

  /** A word has 8 bytes. */
  ghost function WordLimit(): nat {
    Limit256(8)
  }

  class Stack {
    const mem: array<char>
    var rsp: nat

    /** Addresses fit in a word. */
    ghost predicate Valid()
      reads this
    {
      rsp <= mem.Length <= WordLimit()
    }

    constructor (memory: array<char>, top: nat)
      requires top <= memory.Length <= WordLimit()
      ensures mem == memory && rsp == top && Valid()
    {
      mem, rsp := memory, top;
    }

    /** Pushes a byte. */
    method PushByte(ch: char)
      requires 0 < rsp <= mem.Length
      modifies this, mem
      ensures rsp == old(rsp) - 1 && mem[..] == old(mem[..])[rsp := ch]
    {
      rsp := rsp - 1;
      mem[rsp] := ch;
    }

    /** Pushes an 8-byte word. */
    method PushWord(v: nat)
      requires Valid() && 8 <= rsp && v < WordLimit()
      modifies this, mem
      ensures rsp == old(rsp) - 8 && WordAt(mem[..], rsp) == v
      ensures forall a :: 0 <= a < mem.Length && !(rsp <= a < rsp + 8) ==> mem[a] == old(mem[a])
    {
      rsp := rsp - 8;
      var bytes := BytesOf(v, 8);
      var i := 0;
      while i < 8
        invariant 0 <= i <= 8 && forall k :: 0 <= k < i ==> mem[rsp + k] == bytes[k]
        invariant forall a :: 0 <= a < mem.Length && !(rsp <= a < rsp + 8) ==> mem[a] == old(mem[a])
        modifies mem
      {
        mem[rsp + i] := bytes[i];
        i := i + 1;
      }
      ValueOfBytes(mem[..], rsp, v, 8);
    }

    /** Copies a null-terminated string, from its terminator down. */
    method PushString(line: array<char>, p: nat, ghost w: string)
      requires line != mem && IsStr(line[..], p, w) && |w| < rsp <= mem.Length
      modifies this, mem
      ensures rsp == old(rsp) - |w| - 1 && IsStr(mem[..], rsp, w)
      ensures forall a :: 0 <= a < mem.Length && !(rsp <= a < old(rsp)) ==> mem[a] == old(mem[a])
    {
      ghost var top := rsp;
      var n := StrLen(line, p, w);
      var j: int := n;
      while j >= 0
        invariant -1 <= j <= n && rsp == top - (n - j) && line[..] == old(line[..])
        invariant forall b :: rsp <= b < top ==> mem[b] == line[b - top + 1 + p + n]
        invariant forall a :: 0 <= a < mem.Length && !(rsp <= a < top) ==> mem[a] == old(mem[a])
        decreases j
      {
        PushByte(line[p + j]);
        j := j - 1;
      }
      StrChar(line[..], p, w, n);
      forall k | 0 <= k < |w| ensures mem[rsp + k] == w[k] && w[k] != '\0' { StrChar(line[..], p, w, k); }
    }

    /** strlen */
    method StrLen(line: array<char>, p: nat, ghost w: string) returns (n: nat)
      requires IsStr(line[..], p, w)
      ensures n == |w|
    {
      n := 0;
      StrChar(line[..], p, w, 0);
      while line[p + n] != '\0'
        invariant n <= |w| && (line[p + n] == '\0' <==> n == |w|)
        decreases |w| - n
      {
        n := n + 1;
        StrChar(line[..], p, w, n);
      }
    }

    /** The first loop of argument_stack: the strings, the last one first; argv then points to the copies. */
    method PushStrings(line: array<char>, argv: array<nat>, argc: nat, ghost words: seq<string>)
      requires line != mem && argc == |words| <= argv.Length && Size(words) <= rsp <= mem.Length
      requires Found(line[..], argv[..], words, line.Length)
      modifies this, mem, argv
      ensures rsp == old(rsp) - Size(words) && Stored(mem[..], argv[..], words, 0, old(rsp))
      ensures forall a :: 0 <= a < mem.Length && !(rsp <= a < old(rsp)) ==> mem[a] == old(mem[a])
    {
      ghost var (top, kernel) := (rsp, argv[..]);
      var i: int := argc - 1;
      assert words[argc..] == [];
      while i >= 0
        invariant -1 <= i < argc && rsp == Address(words, i + 1, top) && line[..] == old(line[..])
        invariant Stored(mem[..], argv[..], words, i + 1, top)
        invariant forall k :: 0 <= k <= i ==> argv[k] == kernel[k]
        invariant forall a :: 0 <= a < mem.Length && !(rsp <= a < top) ==> mem[a] == old(mem[a])
      {
        SizeFrom(words, i);
        SizeShrinks(words, i);
        ghost var before := mem[..];
        assert IsStr(line[..], argv[i], words[i]);
        PushString(line, argv[i], words[i]);
        argv[i] := rsp;
        StoredStays(before, mem[..], argv[..], words, i, top);
        i := i - 1;
      }
      assert words[0..] == words;
    }

    lemma {:induction false} SizeShrinks(words: seq<string>, i: nat)
      requires i <= |words|
      ensures Size(words[i..]) <= Size(words)
    {
      if i > 0 {
        SizeShrinks(words, i - 1);
        SizeFrom(words, i - 1);
      } else {
        assert words[0..] == words;
      }
    }

    lemma {:induction false} StoredStays(m: seq<char>, m': seq<char>, argv: seq<nat>, words: seq<string>, i: nat,
        top: nat)
      requires Stored(m, argv, words, i + 1, top) && i < |words| && |m'| == |m|
      requires Address(words, i, top) >= 0 && argv[i] == Address(words, i, top) && IsStr(m', argv[i], words[i])
      requires forall a :: 0 <= a < |m| && !(Address(words, i, top) <= a < Address(words, i + 1, top)) ==> m'[a] == m[a]
      ensures Stored(m', argv, words, i, top)
    {
      forall k | i + 1 <= k < |words| ensures IsStr(m', argv[k], words[k]) {
        SizeOrder(words, i + 1, k);
      }
    }

    lemma {:induction false} SizeOrder(words: seq<string>, i: nat, k: nat)
      requires i <= k <= |words|
      ensures Size(words[k..]) <= Size(words[i..])
      decreases k - i
    {
      if i < k {
        SizeOrder(words, i, k - 1);
        SizeFrom(words, k - 1);
      }
    }

    /** The padding loop. */
    method Pad()
      requires 7 <= rsp <= mem.Length
      modifies this, mem
      ensures rsp == old(rsp) - Max(0, Padding(old(rsp)))
      ensures forall a :: 0 <= a < mem.Length && !(rsp <= a < old(rsp)) ==> mem[a] == old(mem[a])
    {
      var pad := Padding(rsp);
      ghost var top := rsp;
      var k := 0;
      while k < pad
        invariant 0 <= k <= Max(0, pad) && rsp == top - k
        invariant forall a :: 0 <= a < mem.Length && !(rsp <= a < top) ==> mem[a] == old(mem[a])
      {
        PushByte(0 as char);
        k := k + 1;
      }
    }

    /** The pointers, the last one first, below a null. */
    method PushPointers(argv: array<nat>, argc: nat)
      requires Valid() && argc <= argv.Length && 8 * (argc + 1) <= rsp
      requires forall k :: 0 <= k < argc ==> argv[k] < mem.Length
      modifies this, mem
      ensures rsp == old(rsp) - 8 * (argc + 1) && Pointed(mem[..], argv[..], argc, 0, rsp)
      ensures forall a :: 0 <= a < mem.Length && !(rsp <= a < old(rsp)) ==> mem[a] == old(mem[a])
    {
      ghost var top := rsp;
      PushWord(0);
      var i: int := argc - 1;
      while i >= 0
        invariant -1 <= i < argc && rsp == top - 8 * (argc - i)
        invariant Pointed(mem[..], argv[..], argc, i + 1, rsp)
        invariant forall a :: 0 <= a < mem.Length && !(rsp <= a < top) ==> mem[a] == old(mem[a])
      {
        ghost var (before, a) := (mem[..], rsp);
        PushWord(argv[i]);
        PointedStays(before, mem[..], argv[..], argc, i, a);
        i := i - 1;
      }
    }

    lemma {:induction false} PointedStays(m: seq<char>, m': seq<char>, argv: seq<nat>, argc: nat, i: nat, a: int)
      requires Pointed(m, argv, argc, i + 1, a) && a >= 8 && |m'| == |m| && WordAt(m', a - 8) == argv[i]
      requires forall b :: a <= b < |m| ==> m'[b] == m[b]
      ensures Pointed(m', argv, argc, i, a - 8)
    {
      forall b: nat | a <= b <= |m| - 8 ensures WordAt(m', b) == WordAt(m, b) { ValueStays(m, m', b, b + 8); }
      forall k | i <= k < argc ensures WordAt(m', a - 8 + 8 * (k - i)) == argv[k] {
        if k > i { assert WordAt(m, a + 8 * (k - (i + 1))) == argv[k]; }
      }
    }

    /** argument_stack: the program reads back exactly the words, and nothing at or above the old rsp, or below the
        new one, has changed. */
    method ArgumentStack(line: array<char>, argv: array<nat>, argc: nat, ghost words: seq<string>)
      requires Valid() && line != mem && argc == |words| <= argv.Length
      requires Found(line[..], argv[..], words, line.Length)
      requires Size(words) + 7 + 8 * (argc + 2) <= rsp
      modifies this, mem, argv
      ensures rsp == FinalRsp(words, old(rsp)) && ArgvAt(mem[..], rsp, words)
      ensures forall a :: 0 <= a < mem.Length && !(rsp <= a < old(rsp)) ==> mem[a] == old(mem[a])
    {
      ghost var top := rsp;
      PushStrings(line, argv, argc, words);
      ghost var (low, m1) := (rsp, mem[..]);
      Pad();
      AddressesFit(argv[..], words, m1, top);
      PushRest(argv, argc, words, m1, top, low);
    }

    /** The pointers and the return address, when the strings are in place. */
    method PushRest(argv: array<nat>, argc: nat, ghost words: seq<string>, ghost m1: seq<char>, ghost top: nat,
        ghost low: nat)
      requires Valid() && argc == |words| <= argv.Length && 8 * (argc + 2) <= rsp <= low == top - Size(words)
      requires Stored(m1, argv[..], words, 0, top) && Same(m1, mem[..], low)
        && forall k :: 0 <= k < argc ==> argv[k] < mem.Length
      modifies this, mem
      ensures rsp == old(rsp) - 8 * (argc + 2) && ArgvAt(mem[..], rsp, words)
      ensures forall a :: 0 <= a < mem.Length && !(rsp <= a < old(rsp)) ==> mem[a] == old(mem[a])
    {
      PushPointers(argv, argc);
      ghost var m2 := mem[..];
      PushWord(0);
      ReadsBack(m1, m2, mem[..], argv[..], words, top, low, rsp);
    }

    lemma {:induction false} AddressesFit(argv: seq<nat>, words: seq<string>, m: seq<char>, top: nat)
      requires Stored(m, argv, words, 0, top)
      ensures forall k :: 0 <= k < |words| ==> argv[k] < |m|
    {
    }

    lemma {:induction false} ReadsBack(m1: seq<char>, m2: seq<char>, m3: seq<char>, argv: seq<nat>, words: seq<string>,
        top: nat, low: nat, r: nat)
      requires Stored(m1, argv, words, 0, top) && low == top - Size(words)
      requires Pointed(m2, argv, |words|, 0, r + 8) && r + 8 * (|words| + 2) <= low
      requires Same(m1, m2, low) && Same(m2, m3, r + 8) && WordAt(m3, r) == 0
      ensures ArgvAt(m3, r, words)
    {
      PointedEnds(m2, m3, argv, |words|, r + 8);
      ArgsReadBack(m1, m2, m3, argv, words, top, low, r);
    }

    lemma {:induction false} ArgsReadBack(m1: seq<char>, m2: seq<char>, m3: seq<char>, argv: seq<nat>,
        words: seq<string>, top: nat, low: nat, r: nat)
      requires Stored(m1, argv, words, 0, top) && low == top - Size(words)
      requires Pointed(m2, argv, |words|, 0, r + 8) && r + 8 * (|words| + 2) <= low
      requires Same(m1, m2, low) && Same(m2, m3, r + 8)
      ensures forall i :: 0 <= i < |words| ==> ArgAt(m3, r, |words|, i, words[i])
    {
      forall i | 0 <= i < |words| ensures ArgAt(m3, r, |words|, i, words[i]) {
        StoredAt(m1, argv, words, top, i);
        PointedAt(m2, argv, |words|, r + 8, i);
        ArgReadsBack(m1, m2, m3, low, r, |words|, i, argv[i], words[i]);
      }
    }

    lemma {:induction false} PointedEnds(m: seq<char>, m': seq<char>, argv: seq<nat>, argc: nat, a: nat)
      requires Pointed(m, argv, argc, 0, a) && Same(m, m', a)
      ensures WordAt(m', a + 8 * argc) == 0
    {
      var end := a + 8 * (argc - 0);
      WordStays(m, m', a, end);
    }

    /** Memory is the same from an address on. */
    static ghost predicate Same(m: seq<char>, m': seq<char>, low: nat) {
      |m'| == |m| && forall b :: low <= b < |m| ==> m'[b] == m[b]
    }

    lemma {:induction false} StoredAt(m: seq<char>, argv: seq<nat>, words: seq<string>, top: nat, i: nat)
      requires Stored(m, argv, words, 0, top) && i < |words|
      ensures IsStr(m, argv[i], words[i]) && argv[i] >= top - Size(words)
    {
      SizeShrinks(words, i);
    }

    lemma {:induction false} PointedAt(m: seq<char>, argv: seq<nat>, argc: nat, a: nat, i: nat)
      requires Pointed(m, argv, argc, 0, a) && i < argc
      ensures WordAt(m, a + 8 * i) == argv[i]
    {
      assert WordAt(m, a + 8 * (i - 0)) == argv[i];
    }

    lemma {:induction false} ArgReadsBack(m1: seq<char>, m2: seq<char>, m3: seq<char>, low: nat, r: nat, argc: nat,
        i: nat, p: nat, w: string)
      requires Same(m1, m2, low) && Same(m2, m3, r + 8) && r + 8 * (argc + 2) <= low <= |m1| && i < argc
      requires WordAt(m2, r + 8 + 8 * i) == p && IsStr(m1, p, w) && p >= low
      ensures ArgAt(m3, r, argc, i, w)
    {
      WordStays(m2, m3, r + 8, r + 8 + 8 * i);
      TextStays(m1, m2, low, p, w);
      TextStays(m2, m3, r + 8, p, w);
    }

    lemma {:induction false} WordStays(m: seq<char>, m': seq<char>, low: nat, b: nat)
      requires Same(m, m', low) && low <= b <= |m| - 8
      ensures WordAt(m', b) == WordAt(m, b)
    {
      ValueStays(m, m', b, b + 8);
    }

    lemma {:induction false} TextStays(m: seq<char>, m': seq<char>, low: nat, p: nat, w: string)
      requires Same(m, m', low) && low <= p && IsStr(m, p, w)
      ensures IsStr(m', p, w)
    {
    }
  }

  /** The stack pointer that argument_stack leaves is aligned exactly when the padding can align it. */
  lemma {:induction false} AlignedExactly(words: seq<string>, top: nat)
    requires Size(words) <= top
    ensures
      var a := top - Size(words);
      FinalRsp(words, top) % 8 == 0 <==> a % 0x1_0000_0000 < 0x8000_0000 || a % 8 == 0
  {
    var a := top - Size(words);
    PaddingAligns(a);
    var b := a - Max(0, Padding(a));
    EightFewer(b, |words| + 2);
  }

  lemma EightFewer(b: int, n: nat)
    ensures (b - 8 * n) % 8 == b % 8
  {
  }

  const USER_STACK: nat := 0x4748_0000

  /** The user stack starts below 2^31, so there it is always aligned. */
  lemma {:induction false} UserStackIsAligned(words: seq<string>)
    requires Size(words) <= USER_STACK
    ensures FinalRsp(words, USER_STACK) % 8 == 0
  {
    AlignedExactly(words, USER_STACK);
  }

  /** The argument passing of process_exec: rdi and rsi, and the stack from which the program reads the words of its
      command line. */
  method PassArguments(line: array<char>, stack: Stack, ghost t: string) returns (rdi: nat, rsi: nat)
    requires line != stack.mem && IsStr(line[..], 0, t) && |Words(t, " ")| <= 64
    requires stack.Valid() && stack.rsp == USER_STACK
    requires Size(Words(t, " ")) + 7 + 8 * (|Words(t, " ")| + 2) <= USER_STACK
    modifies line, stack, stack.mem
    ensures rdi == |Words(t, " ")| && rsi == stack.rsp + 8 && stack.rsp % 8 == 0
      && ArgvAt(stack.mem[..], stack.rsp, Words(t, " "))
    ensures forall a :: 0 <= a < stack.mem.Length && !(stack.rsp <= a < USER_STACK) ==>
      stack.mem[a] == old(stack.mem[a])
  {
    var parse, count := Split(line, t, Words(t, " "));
    UserStackIsAligned(Words(t, " "));
    stack.ArgumentStack(line, parse, count, Words(t, " "));
    rdi, rsi := count, stack.rsp + 8;
  }
}
