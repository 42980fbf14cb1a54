/**
 * Scanning Git objects for configured addresses, one chunk at a time, off the output of
 * `git cat-file --batch`.
 */
module PrivacyScan {
  import opened Wrappers
  import opened Bytes

  datatype Kind = Commit | Tree | Blob | Tag

  datatype GitObject = GitObject(kind: Kind, content: Bytes)

  type Store = map<Bytes, GitObject>

  datatype Error = BlockedEmail | InvalidId | Unavailable | Incomplete | Boundary | InspectionFailed | InvalidPolicy

  datatype Result = Ok | Err(error: Error)

  const AT: Byte := 64
  const NEWLINE: Byte := 10
  const SPACE: Byte := 32

  // ---- Patterns ----

  function LowerByte(b: Byte): Byte { if 65 <= b <= 90 then b + 32 else b }

  function Lower(s: Bytes): (r: Bytes)
    ensures |r| == |s|
  {
    seq(|s|, i requires 0 <= i < |s| => LowerByte(s[i]))
  }

  function ReplaceAt(s: Bytes, spelling: Bytes): Bytes
  {
    if s == [] then [] else (if s[0] == AT then spelling else [s[0]]) + ReplaceAt(s[1..], spelling)
  }

  /** `@`, `\@`, `%40`, `&#64;` and `&#x40;`. */
  const SPELLINGS: seq<Bytes> := [[64], [92, 64], [37, 52, 48], [38, 35, 54, 52, 59], [38, 35, 120, 52, 48, 59]]

  function Variants(address: Bytes): seq<Bytes>
  {
    seq(5, i requires 0 <= i < 5 => ReplaceAt(Lower(address), SPELLINGS[i]))
  }

  function Patterns(addresses: seq<Bytes>): seq<Bytes>
  {
    if addresses == [] then [] else Variants(addresses[0]) + Patterns(addresses[1..])
  }

  predicate ValidPolicy(addresses: seq<Bytes>)
  {
    addresses != [] && forall a :: a in addresses ==> AT in a
  }

  function LongestOf(patterns: seq<Bytes>): nat
  {
    if patterns == [] then 0
    else if |patterns[0]| > LongestOf(patterns[1..]) then |patterns[0]|
    else LongestOf(patterns[1..])
  }

  function Overlap(patterns: seq<Bytes>): int { LongestOf(patterns) - 1 }

  lemma {:induction false} LongestBounds(patterns: seq<Bytes>)
    ensures forall p :: p in patterns ==> |p| <= LongestOf(patterns)
  {
    if patterns != [] {
      LongestBounds(patterns[1..]);
      assert forall p :: p in patterns <==> p == patterns[0] || p in patterns[1..];
    }
  }

  lemma {:induction false} ReplaceAtLength(s: Bytes, spelling: Bytes)
    requires spelling != []
    ensures |ReplaceAt(s, spelling)| >= |s|
    ensures AT in s ==> |ReplaceAt(s, spelling)| >= |s| + |spelling| - 1
  {
    if s != [] {
      ReplaceAtLength(s[1..], spelling);
      assert AT in s ==> s[0] == AT || AT in s[1..];
    }
  }

  lemma VariantLengths(address: Bytes)
    requires AT in address
    ensures forall p :: p in Variants(address) ==> p != []
    ensures exists p :: p in Variants(address) && |p| >= 6
  {
    var low := Lower(address);
    var k :| 0 <= k < |address| && address[k] == AT;
    assert low[k] == AT;
    forall i | 0 <= i < 5
      ensures |Variants(address)[i]| >= |SPELLINGS[i]|
    {
      ReplaceAtLength(low, SPELLINGS[i]);
    }
    assert |Variants(address)[4]| >= 6;
    assert Variants(address)[4] in Variants(address);
  }

  /** With a valid policy the carried tail is never empty by accident: the overlap is at least 5. */
  lemma {:induction false} OverlapPositive(addresses: seq<Bytes>)
    requires ValidPolicy(addresses)
    ensures Overlap(Patterns(addresses)) >= 5
    ensures forall p :: p in Patterns(addresses) ==> 0 < |p| <= Overlap(Patterns(addresses)) + 1
  {
    var patterns := Patterns(addresses);
    LongestBounds(patterns);
    assert addresses[0] in addresses;
    VariantLengths(addresses[0]);
    var long :| long in Variants(addresses[0]) && |long| >= 6;
    assert long in patterns;
    PatternsNotEmpty(addresses);
  }

  lemma {:induction false} PatternsNotEmpty(addresses: seq<Bytes>)
    requires forall a :: a in addresses ==> AT in a
    ensures forall p :: p in Patterns(addresses) ==> p != []
  {
    if addresses != [] {
      assert addresses[0] in addresses;
      VariantLengths(addresses[0]);
      PatternsNotEmpty(addresses[1..]);
    }
  }

  // ---- Searching ----

  predicate OccursAt(s: Bytes, p: Bytes, i: int)
  {
    0 <= i <= |s| - |p| && s[i..i + |p|] == p
  }

  /** `p in s` of byte strings. */
  predicate Contains(s: Bytes, p: Bytes)
  {
    exists i :: 0 <= i <= |s| && OccursAt(s, p, i)
  }

  /** `inspect` refuses these bytes. */
  predicate Blocked(s: Bytes, patterns: seq<Bytes>)
  {
    exists p :: p in patterns && Contains(Lower(s), p)
  }

  // ---- What is found ----

  /** The same byte, or the same ASCII letter in the other case. */
  predicate SameLetter(a: Byte, b: Byte)
  {
    a == b || (65 <= a <= 90 && b == a + 32) || (65 <= b <= 90 && a == b + 32)
  }

  predicate SameText(s: Bytes, t: Bytes)
  {
    |s| == |t| && forall i :: 0 <= i < |s| ==> SameLetter(s[i], t[i])
  }

  lemma LowerExactly(s: Bytes, t: Bytes)
    ensures Lower(s) == Lower(t) <==> SameText(s, t)
  {
    if Lower(s) == Lower(t) {
      forall i | 0 <= i < |s|
        ensures SameLetter(s[i], t[i])
      {
        assert Lower(s)[i] == Lower(t)[i];
      }
    }
  }

  /** The parts with a separator between each two. */
  function Joined(parts: seq<Bytes>, separator: Bytes): Bytes
    requires parts != []
  {
    if |parts| == 1 then parts[0] else parts[0] + separator + Joined(parts[1..], separator)
  }

  /** The parts of an address around its `@`. */
  predicate AtFree(parts: seq<Bytes>)
  {
    parts != [] && forall i :: 0 <= i < |parts| ==> 64 !in parts[i]
  }

  lemma {:induction false} SplitAddress(a: Bytes) returns (parts: seq<Bytes>)
    ensures AtFree(parts) && a == Joined(parts, [64])
  {
    if a == [] {
      parts := [[]];
    } else {
      var rest := SplitAddress(a[1..]);
      assert a == [a[0]] + a[1..];
      if a[0] == 64 {
        parts := [[]] + rest;
        assert parts[1..] == rest && [] + [64] == [64];
      } else {
        parts := [[a[0]] + rest[0]] + rest[1..];
        assert parts[1..] == rest[1..];
        assert |rest| > 1 ==> a == ([a[0]] + rest[0]) + [64] + Joined(rest[1..], [64]);
      }
    }
  }

  lemma {:induction false} ReplaceAtAppend(s: Bytes, t: Bytes, spelling: Bytes)
    ensures ReplaceAt(s + t, spelling) == ReplaceAt(s, spelling) + ReplaceAt(t, spelling)
  {
    if s == [] {
      assert s + t == t;
    } else {
      assert (s + t)[1..] == s[1..] + t;
      ReplaceAtAppend(s[1..], t, spelling);
    }
  }

  lemma {:induction false} ReplaceAtKeeps(s: Bytes, spelling: Bytes)
    requires 64 !in s
    ensures ReplaceAt(s, spelling) == s
  {
    if s != [] {
      assert s == [s[0]] + s[1..] && s[0] in s;
      ReplaceAtKeeps(s[1..], spelling);
    }
  }

  lemma LowerAppend(s: Bytes, t: Bytes)
    ensures Lower(s + t) == Lower(s) + Lower(t)
  {
  }

  lemma LowerAtFree(s: Bytes)
    requires 64 !in s
    ensures 64 !in Lower(s)
  {
    forall i | 0 <= i < |s|
      ensures Lower(s)[i] != 64
    {
      assert s[i] in s;
    }
  }

  /** Spelling every `@` of an address in another way. */
  lemma {:induction false} ReplaceAtJoins(parts: seq<Bytes>, spelling: Bytes)
    requires AtFree(parts) && Lower(spelling) == spelling
    ensures ReplaceAt(Lower(Joined(parts, [64])), spelling) == Lower(Joined(parts, spelling))
  {
    var first := parts[0];
    LowerAtFree(first);
    ReplaceAtKeeps(Lower(first), spelling);
    if |parts| > 1 {
      var rest := parts[1..];
      ReplaceAtJoins(rest, spelling);
      LowerAppend(first + [64], Joined(rest, [64]));
      LowerAppend(first, [64]);
      assert Lower([64]) == [64];
      ReplaceAtAppend(Lower(first) + [64], Lower(Joined(rest, [64])), spelling);
      ReplaceAtAppend(Lower(first), [64], spelling);
      assert [64][1..] == [] && ReplaceAt([64], spelling) == spelling + ReplaceAt([], spelling) == spelling;
      LowerAppend(first + spelling, Joined(rest, spelling));
      LowerAppend(first, spelling);
    }
  }

  /** `@`, `\@`, `%40`, `&#64;` or `&#x40;`. */
  predicate Spells(x: Bytes)
  {
    || x == [64] || x == [92, 64] || x == [37, 52, 48] || x == [38, 35, 54, 52, 59] || x == [38, 35, 120, 52, 48, 59]
  }

  lemma SpellingsExactly(x: Bytes)
    ensures x in SPELLINGS <==> Spells(x)
    ensures Spells(x) ==> Lower(x) == x
  {
    assert SPELLINGS == [SPELLINGS[0], SPELLINGS[1], SPELLINGS[2], SPELLINGS[3], SPELLINGS[4]];
  }

  lemma {:induction false} PatternsExactly(addresses: seq<Bytes>, p: Bytes)
    ensures p in Patterns(addresses) <==>
            exists a, i :: a in addresses && 0 <= i < 5 && p == ReplaceAt(Lower(a), SPELLINGS[i])
  {
    if addresses != [] {
      PatternsExactly(addresses[1..], p);
      var variants := Variants(addresses[0]);
      assert p in Patterns(addresses) <==> p in variants || p in Patterns(addresses[1..]);
      assert forall i :: 0 <= i < 5 ==> variants[i] == ReplaceAt(Lower(addresses[0]), SPELLINGS[i]);
      assert forall a :: a in addresses <==> a == addresses[0] || a in addresses[1..];
    }
  }

  /** `text` is the address `a`, in any case, every `@` in it spelled as `spelling`. */
  ghost predicate Writes(text: Bytes, a: Bytes, parts: seq<Bytes>, spelling: Bytes)
  {
    AtFree(parts) && Spells(spelling) && a == Joined(parts, [64]) && SameText(text, Joined(parts, spelling))
  }

  /** `s` holds an address in one of the five spellings. */
  ghost predicate Holds(s: Bytes, addresses: seq<Bytes>)
  {
    exists before, text, after, a, parts, spelling ::
      s == before + text + after && a in addresses && Writes(text, a, parts, spelling)
  }

  lemma HoldsBlocked(
      addresses: seq<Bytes>, before: Bytes, text: Bytes, after: Bytes, a: Bytes, parts: seq<Bytes>, spelling: Bytes)
    requires a in addresses && Writes(text, a, parts, spelling)
    ensures Blocked(before + text + after, Patterns(addresses))
  {
    var s, p := before + text + after, Lower(text);
    SpellingsExactly(spelling);
    ReplaceAtJoins(parts, spelling);
    LowerExactly(text, Joined(parts, spelling));
    var i :| 0 <= i < |SPELLINGS| && SPELLINGS[i] == spelling;
    assert p == ReplaceAt(Lower(a), SPELLINGS[i]);
    PatternsExactly(addresses, p);
    assert s[|before|..|before| + |p|] == text;
    LowerSlice(s, |before|, |before| + |p|);
    assert OccursAt(Lower(s), p, |before|);
  }

  /** Where a pattern occurs in the lower-cased text, a text stands that lower-cases to it. */
  lemma OccurrenceIsText(s: Bytes, p: Bytes, k: nat)
    requires OccursAt(Lower(s), p, k)
    ensures k + |p| <= |s| && Lower(s[k..k + |p|]) == p
    ensures s == s[..k] + s[k..k + |p|] + s[k + |p|..]
  {
    LowerSlice(s, k, k + |p|);
  }

  lemma VariantWrites(a: Bytes, i: nat, text: Bytes) returns (parts: seq<Bytes>)
    requires i < 5 && Lower(text) == ReplaceAt(Lower(a), SPELLINGS[i])
    ensures Writes(text, a, parts, SPELLINGS[i])
  {
    SpellingsExactly(SPELLINGS[i]);
    parts := SplitAddress(a);
    ReplaceAtJoins(parts, SPELLINGS[i]);
    LowerExactly(text, Joined(parts, SPELLINGS[i]));
  }

  lemma BlockedHolds(addresses: seq<Bytes>, s: Bytes)
    requires Blocked(s, Patterns(addresses))
    ensures Holds(s, addresses)
  {
    var p :| p in Patterns(addresses) && Contains(Lower(s), p);
    PatternsExactly(addresses, p);
    var a, i :| a in addresses && 0 <= i < 5 && p == ReplaceAt(Lower(a), SPELLINGS[i]);
    var k :| 0 <= k <= |s| && OccursAt(Lower(s), p, k);
    OccurrenceIsText(s, p, k);
    var parts := VariantWrites(a, i, s[k..k + |p|]);
  }

  /**
   * What is refused is exactly what holds one of the addresses, in any case, with its `@`
   * as such, after a backslash, or as one of the three usual escapes.
   */
  lemma BlockedExactly(addresses: seq<Bytes>, s: Bytes)
    ensures Blocked(s, Patterns(addresses)) <==> Holds(s, addresses)
  {
    if Blocked(s, Patterns(addresses)) {
      BlockedHolds(addresses, s);
    }
    if before, text, after, a, parts, spelling :|
       s == before + text + after && a in addresses && Writes(text, a, parts, spelling) {
      HoldsBlocked(addresses, before, text, after, a, parts, spelling);
    }
  }

  /** An address as it is written, in any case, is refused wherever it stands. */
  lemma PlainAddressBlocked(addresses: seq<Bytes>, a: Bytes, before: Bytes, text: Bytes, after: Bytes)
    requires a in addresses && SameText(text, a)
    ensures Blocked(before + text + after, Patterns(addresses))
  {
    var parts := SplitAddress(a);
    HoldsBlocked(addresses, before, text, after, a, parts, [64]);
  }

  // ---- Chunks ----

  function LastBytes(s: Bytes, n: nat): Bytes
  {
    if n >= |s| then s else s[|s| - n..]
  }

  lemma LowerSlice(s: Bytes, i: nat, j: nat)
    requires i <= j <= |s|
    ensures Lower(s[i..j]) == Lower(s)[i..j]
  {
  }

  lemma SliceSlice(s: Bytes, i: nat, j: nat, k: nat, m: nat)
    requires i <= j <= |s| && k <= m <= j - i
    ensures s[i..j][k..m] == s[i + k..i + m]
  {
    var a, b := s[i..j][k..m], s[i + k..i + m];
    forall q | 0 <= q < m - k
      ensures a[q] == b[q]
    {
      assert a[q] == s[i..j][k + q] == s[i + k + q];
    }
  }

  lemma SliceContains(s: Bytes, i: nat, j: nat, p: Bytes)
    requires i <= j <= |s| && Contains(s[i..j], p)
    ensures Contains(s, p)
  {
    var k :| 0 <= k <= j - i && OccursAt(s[i..j], p, k);
    SliceSlice(s, i, j, k, k + |p|);
    assert OccursAt(s, p, i + k);
  }

  lemma SliceBlocked(s: Bytes, i: nat, j: nat, patterns: seq<Bytes>)
    requires i <= j <= |s| && Blocked(s[i..j], patterns)
    ensures Blocked(s, patterns)
  {
    var p :| p in patterns && Contains(Lower(s[i..j]), p);
    LowerSlice(s, i, j);
    SliceContains(Lower(s), i, j, p);
  }

  /**
   * The seam between two reads: when nothing was found in `before`, looking at its last
   * `overlap` bytes and the new chunk finds what looking at everything would.
   */
  lemma Seam(before: Bytes, chunk: Bytes, overlap: nat, patterns: seq<Bytes>)
    requires forall p :: p in patterns ==> 0 < |p| <= overlap + 1
    requires !Blocked(before, patterns)
    ensures Blocked(before + chunk, patterns) <==> Blocked(LastBytes(before, overlap) + chunk, patterns)
  {
    var whole := before + chunk;
    var from := if overlap >= |before| then 0 else |before| - overlap;
    assert LastBytes(before, overlap) + chunk == whole[from..|whole|];
    if Blocked(whole, patterns) {
      var p :| p in patterns && Contains(Lower(whole), p);
      LateOccurrence(whole, |before|, from, p, patterns) by {
        assert whole[..|before|] == before;
      }
    }
    if Blocked(whole[from..|whole|], patterns) {
      SliceBlocked(whole, from, |whole|, patterns);
    }
  }

  lemma LateOccurrence(whole: Bytes, n: nat, from: nat, p: Bytes, patterns: seq<Bytes>)
    requires from <= n <= |whole| && p in patterns && (from == 0 || n + 1 - from >= |p|) && p != []
    requires !Blocked(whole[..n], patterns)
    requires Contains(Lower(whole), p)
    ensures Contains(Lower(whole[from..|whole|]), p)
  {
    var i :| 0 <= i <= |whole| && OccursAt(Lower(whole), p, i);
    if i + |p| <= n {
      assert whole[..n] == whole[0..n];
      LowerSlice(whole, 0, n);
      SliceSlice(Lower(whole), 0, n, i, i + |p|);
      assert OccursAt(Lower(whole[..n]), p, i);
      assert false;
    }
    LowerSlice(whole, from, |whole|);
    SliceSlice(Lower(whole), from, |whole|, i - from, i - from + |p|);
    assert OccursAt(Lower(whole[from..|whole|]), p, i - from);
  }

  lemma PrefixBlocked(whole: Bytes, n: nat, patterns: seq<Bytes>)
    requires n <= |whole| && Blocked(whole[..n], patterns)
    ensures Blocked(whole, patterns)
  {
    assert whole[..n] == whole[0..n];
    SliceBlocked(whole, 0, n, patterns);
  }

  /** What becomes of an object of `size` bytes at the front of `pipe`, and of the newline after it. */
  function Verdict(pipe: Bytes, size: nat, exempt: bool, patterns: seq<Bytes>): Result
  {
    if !exempt && Blocked(if |pipe| >= size then pipe[..size] else pipe, patterns) then Err(BlockedEmail)
    else if |pipe| < size then Err(Incomplete)
    else if |pipe| > size && pipe[size] == NEWLINE then Ok
    else Err(Boundary)
  }

  /** What is refused part of the way is refused as a whole. */
  lemma EarlyRefusal(consumed: Bytes, rest: Bytes, pipe: Bytes, size: nat, patterns: seq<Bytes>)
    requires Blocked(consumed, patterns) && pipe == consumed + rest && |consumed| <= size
    ensures Verdict(pipe, size, false, patterns) == Err(BlockedEmail)
  {
    assert pipe[..|consumed|] == consumed;
    PrefixBlocked(pipe, |consumed|, patterns);
    if |pipe| >= size {
      assert pipe[..size][..|consumed|] == consumed;
      PrefixBlocked(pipe[..size], |consumed|, patterns);
    }
  }

  lemma BoundaryReached(consumed: Bytes, rest: Bytes, pipe: Bytes, size: nat, exempt: bool, patterns: seq<Bytes>)
    requires pipe == consumed + rest && |consumed| == size && (!exempt ==> !Blocked(consumed, patterns))
    ensures Verdict(pipe, size, exempt, patterns) == if rest != [] && rest[0] == NEWLINE then Ok else Err(Boundary)
    ensures rest != [] ==> pipe[size + 1..] == rest[1..]
  {
    assert pipe[..size] == consumed;
  }

  lemma LastBytesStep(before: Bytes, chunk: Bytes, overlap: nat)
    ensures LastBytes(LastBytes(before, overlap) + chunk, overlap) == LastBytes(before + chunk, overlap)
  {
  }

  function Flatten(chunks: seq<Bytes>): Bytes
  {
    if chunks == [] then [] else chunks[0] + Flatten(chunks[1..])
  }

  /** Whether the loop over `chunks`, carrying `tail`, refuses at some chunk. */
  predicate Refuses(chunks: seq<Bytes>, tail: Bytes, overlap: nat, patterns: seq<Bytes>)
  {
    chunks != [] &&
    (Blocked(tail + chunks[0], patterns) ||
      Refuses(chunks[1..], LastBytes(tail + chunks[0], overlap), overlap, patterns))
  }

  /** However an object is split, the loop refuses it exactly when the whole is blocked. */
  lemma {:induction false} SplitIrrelevant(before: Bytes, chunks: seq<Bytes>, overlap: nat, patterns: seq<Bytes>)
    requires forall p :: p in patterns ==> 0 < |p| <= overlap + 1
    requires !Blocked(before, patterns)
    ensures Refuses(chunks, LastBytes(before, overlap), overlap, patterns) <==>
            Blocked(before + Flatten(chunks), patterns)
    decreases |chunks|
  {
    if chunks == [] {
      assert before + Flatten(chunks) == before;
    } else {
      var next := before + chunks[0];
      Seam(before, chunks[0], overlap, patterns);
      LastBytesStep(before, chunks[0], overlap);
      assert before + Flatten(chunks) == next + Flatten(chunks[1..]);
      if Blocked(next, patterns) {
        assert (before + Flatten(chunks))[..|next|] == next;
        PrefixBlocked(before + Flatten(chunks), |next|, patterns);
      } else {
        SplitIrrelevant(next, chunks[1..], overlap, patterns);
      }
    }
  }

  // ---- The output of `git cat-file --batch` ----

  function KindName(kind: Kind): Bytes
  {
    match kind
    case Commit => [99, 111, 109, 109, 105, 116]
    case Tree => [116, 114, 101, 101]
    case Blob => [98, 108, 111, 98]
    case Tag => [116, 97, 103]
  }

  const MISSING: Bytes := [109, 105, 115, 115, 105, 110, 103]

  function Header(store: Store, oid: Bytes): Bytes
  {
    if oid in store then oid + [SPACE] + KindName(store[oid].kind) + [SPACE] + Decimal(|store[oid].content|) + [NEWLINE]
    else oid + [SPACE] + MISSING + [NEWLINE]
  }

  function Reply(store: Store, oid: Bytes): Bytes
  {
    Header(store, oid) + if oid in store then store[oid].content + [NEWLINE] else []
  }

  predicate IsBlank(b: Byte) { b == 32 || 9 <= b <= 13 }

  predicate Plain(word: Bytes) { word != [] && forall i :: 0 <= i < |word| ==> !IsBlank(word[i]) }

  /** `bytes.split()`, `word` being the word begun. */
  function Words(s: Bytes, word: Bytes): seq<Bytes>
  {
    if s == [] then (if word == [] then [] else [word])
    else if IsBlank(s[0]) then (if word == [] then [] else [word]) + Words(s[1..], [])
    else Words(s[1..], word + [s[0]])
  }

  lemma {:induction false} WordsTake(word: Bytes, begun: Bytes, blank: Byte, rest: Bytes)
    requires IsBlank(blank) && begun + word != [] && forall i :: 0 <= i < |word| ==> !IsBlank(word[i])
    ensures Words(word + [blank] + rest, begun) == [begun + word] + Words(rest, [])
  {
    var s := word + [blank] + rest;
    if word == [] {
      assert s[1..] == rest;
      assert begun + word == begun;
    } else {
      assert s[1..] == word[1..] + [blank] + rest;
      assert begun + [word[0]] + word[1..] == begun + word;
      WordsTake(word[1..], begun + [word[0]], blank, rest);
    }
  }

  lemma FirstWord(word: Bytes, blank: Byte, rest: Bytes)
    requires IsBlank(blank) && Plain(word)
    ensures Words(word + [blank] + rest, []) == [word] + Words(rest, [])
  {
    WordsTake(word, [], blank, rest);
    assert [] + word == word;
  }

  function LineLength(s: Bytes): (n: nat)
    ensures n <= |s|
  {
    if s == [] then 0 else if s[0] == NEWLINE then 1 else 1 + LineLength(s[1..])
  }

  lemma {:induction false} LineLengthIs(line: Bytes, rest: Bytes)
    requires NEWLINE !in line
    ensures LineLength(line + [NEWLINE] + rest) == |line| + 1
  {
    if line != [] {
      assert (line + [NEWLINE] + rest)[1..] == line[1..] + [NEWLINE] + rest;
      LineLengthIs(line[1..], rest);
    }
  }

  predicate IsHex(b: Byte) { 48 <= b <= 57 || 97 <= b <= 102 }

  predicate ValidId(oid: Bytes)
  {
    (|oid| == 40 || |oid| == 64) && forall i :: 0 <= i < |oid| ==> IsHex(oid[i])
  }

  lemma LineOf(line: Bytes, rest: Bytes)
    requires NEWLINE !in line
    ensures LineLength(line + [NEWLINE] + rest) == |line + [NEWLINE]|
  {
    LineLengthIs(line, rest);
  }

  lemma ThreeWords(a: Bytes, b: Bytes, c: Bytes)
    requires Plain(a) && Plain(b) && Plain(c)
    ensures Words(a + [SPACE] + b + [SPACE] + c + [NEWLINE], []) == [a, b, c]
    ensures NEWLINE !in a + [SPACE] + b + [SPACE] + c
  {
    var tail := c + [NEWLINE] + [];
    assert a + [SPACE] + b + [SPACE] + c + [NEWLINE] == a + [SPACE] + (b + [SPACE] + tail);
    FirstWord(a, SPACE, b + [SPACE] + tail);
    FirstWord(b, SPACE, tail);
    FirstWord(c, NEWLINE, []);
  }

  lemma TwoWords(a: Bytes, b: Bytes)
    requires Plain(a) && Plain(b)
    ensures Words(a + [SPACE] + b + [NEWLINE], []) == [a, b]
    ensures NEWLINE !in a + [SPACE] + b
  {
    var tail := b + [NEWLINE] + [];
    assert a + [SPACE] + b + [NEWLINE] == a + [SPACE] + tail;
    FirstWord(a, SPACE, tail);
    FirstWord(b, NEWLINE, []);
  }

  /** A header is one line, of three words exactly for an object that exists. */
  lemma HeaderParses(store: Store, oid: Bytes, rest: Bytes)
    requires ValidId(oid)
    ensures LineLength(Header(store, oid) + rest) == |Header(store, oid)|
    ensures Words(Header(store, oid), []) ==
            if oid in store then [oid, KindName(store[oid].kind), Decimal(|store[oid].content|)] else [oid, MISSING]
  {
    if oid in store {
      var kind, size := KindName(store[oid].kind), Decimal(|store[oid].content|);
      DecimalRoundTrip(|store[oid].content|);
      ThreeWords(oid, kind, size);
      LineOf(oid + [SPACE] + kind + [SPACE] + size, rest);
    } else {
      TwoWords(oid, MISSING);
      LineOf(oid + [SPACE] + MISSING, rest);
    }
  }

  /** The texts of Git's protocol, and what its ids and blanks are made of. */
  lemma ProtocolTexts(b: Byte, oid: Bytes)
    ensures KindName(Commit) == Ascii("commit") && KindName(Tree) == Ascii("tree")
    ensures KindName(Blob) == Ascii("blob") && KindName(Tag) == Ascii("tag") && MISSING == Ascii("missing")
    ensures [NEWLINE] == Ascii("\n") && [SPACE] == Ascii(" ") && [AT] == Ascii("@")
    ensures IsBlank(b) <==> b in Ascii(" \t\n\r\U{0b}\U{0c}")
    ensures ValidId(oid) <==>
            (|oid| == 40 || |oid| == 64) && forall i :: 0 <= i < |oid| ==> oid[i] in Ascii("0123456789abcdef")
  {
    HexExactly(b);
    forall i | 0 <= i < |oid|
      ensures IsHex(oid[i]) <==> oid[i] in Ascii("0123456789abcdef")
    {
      HexExactly(oid[i]);
    }
    assert Ascii(" \t\n\r\U{0b}\U{0c}") == [32, 9, 10, 13, 11, 12];
  }

  lemma HexExactly(b: Byte)
    ensures IsHex(b) <==> b in Ascii("0123456789abcdef")
  {
    assert Ascii("0123456789abcdef") == [48, 49, 50, 51, 52, 53, 54, 55, 56, 57, 97, 98, 99, 100, 101, 102];
  }

  // ---- The program ----

  /** The output pipe; `rest` is what has not been read yet. */
  class Pipe {
    var rest: Bytes

    constructor ()
      ensures rest == []
    {
      rest := [];
    }

    /** At most `n` bytes, at least one unless the pipe is at its end, otherwise any number. */
    method Read(n: nat) returns (chunk: Bytes)
      modifies this
      ensures old(rest) == chunk + rest && |chunk| <= n
      ensures n > 0 && old(rest) != [] ==> chunk != []
    {
      var most := if n < |rest| then n else |rest|;
      var k :| 0 <= k <= most && (most > 0 ==> k > 0);
      chunk := rest[..k];
      rest := rest[k..];
    }

    method ReadLine() returns (line: Bytes)
      modifies this
      ensures line == old(rest)[..LineLength(old(rest))] && rest == old(rest)[LineLength(old(rest))..]
    {
      var n := LineLength(rest);
      line := rest[..n];
      rest := rest[n..];
    }
  }

  class Guard {
    const patterns: seq<Bytes>
    const overlap: nat

    ghost predicate Valid()
    {
      forall p :: p in patterns ==> 0 < |p| <= overlap + 1
    }

    constructor (addresses: seq<Bytes>)
      requires ValidPolicy(addresses)
      ensures Valid() && patterns == Patterns(addresses) && overlap == Overlap(patterns) && overlap > 0
    {
      OverlapPositive(addresses);
      patterns := Patterns(addresses);
      overlap := Overlap(Patterns(addresses));
    }

    method Inspect(data: Bytes) returns (r: Result)
      ensures r == if Blocked(data, patterns) then Err(BlockedEmail) else Ok
    {
      var normalized := Lower(data);
      if exists p :: p in patterns && Contains(normalized, p) {
        return Err(BlockedEmail);
      }
      return Ok;
    }

    /**
     * Reads one object of `size` bytes and the newline after it. However the object comes
     * in pieces, it is refused exactly when the whole of it contains a pattern.
     */
    method ScanObject(pipe: Pipe, size: nat, exempt: bool) returns (r: Result)
      requires Valid()
      modifies pipe
      ensures r == Verdict(old(pipe.rest), size, exempt, patterns)
      ensures r.Ok? ==> pipe.rest == old(pipe.rest)[size + 1..]
    {
      ghost var start := pipe.rest;
      ghost var consumed: Bytes := [];
      var remaining, tail := size, [];
      while remaining > 0
        invariant remaining >= 0 && remaining + |consumed| == size && start == consumed + pipe.rest
        invariant !exempt ==> !Blocked(consumed, patterns) && tail == LastBytes(consumed, overlap)
        decreases remaining
      {
        var chunk := pipe.Read(if remaining < 1048576 then remaining else 1048576);
        if chunk == [] {
          assert start == consumed;
          return Err(Incomplete);
        }
        if !exempt {
          r := Inspect(tail + chunk);
          Seam(consumed, chunk, overlap, patterns);
          if r.Err? {
            EarlyRefusal(consumed + chunk, pipe.rest, start, size, patterns);
            return;
          }
          LastBytesStep(consumed, chunk, overlap);
          tail := LastBytes(tail + chunk, overlap);
        }
        consumed := consumed + chunk;
        remaining := remaining - |chunk|;
      }
      BoundaryReached(consumed, pipe.rest, start, size, exempt, patterns);
      var last := pipe.Read(1);
      if last != [NEWLINE] {
        return Err(Boundary);
      }
      return Ok;
    }

    /** Whether every object is there and may be published. */
    ghost predicate Publishable(store: Store, ids: seq<Bytes>, allowContent: bool)
    {
      forall i :: 0 <= i < |ids| ==> Passes(store, ids[i], allowContent)
    }

    ghost predicate Passes(store: Store, oid: Bytes, allowContent: bool)
    {
      && ValidId(oid) && oid in store
      && ((allowContent && store[oid].kind == Blob) || !Blocked(store[oid].content, patterns))
    }

    /** Passes exactly when every listed object does; between objects the pipe is at a header. */
    method Objects(store: Store, ids: seq<Bytes>, allowContent: bool, exitsCleanly: bool) returns (r: Result)
      requires Valid()
      ensures r.Ok? <==> Publishable(store, ids, allowContent) && exitsCleanly
    {
      var pipe := new Pipe();
      var seen: set<Bytes> := {};
      for i := 0 to |ids|
        invariant pipe.rest == [] && fresh(pipe)
        invariant forall j :: 0 <= j < i ==> Passes(store, ids[j], allowContent)
        invariant forall oid :: oid in seen ==> Passes(store, oid, allowContent)
      {
        var oid := ids[i];
        if oid in seen {
          continue;
        }
        if !ValidId(oid) {
          return Err(InvalidId);
        }
        r := Object(pipe, store, oid, allowContent);
        if r.Err? {
          return;
        }
        seen := seen + {oid};
      }
      return if exitsCleanly then Ok else Err(InspectionFailed);
    }

    /** Asks for one object and reads its reply to the end. */
    method Object(pipe: Pipe, store: Store, oid: Bytes, allowContent: bool) returns (r: Result)
      requires Valid() && ValidId(oid) && pipe.rest == []
      modifies pipe
      ensures r.Ok? <==> Passes(store, oid, allowContent)
      ensures r.Ok? ==> pipe.rest == []
    {
      pipe.rest := Reply(store, oid);
      var header := ReadHeader(pipe, store, oid);
      if header.None? {
        return Err(Unavailable);
      }
      ghost var content := store[oid].content;
      assert (content + [NEWLINE])[..|content|] == content;
      r := ScanObject(pipe, header.value.1, allowContent && header.value.0);
    }
  }

  /** Whether the object is a blob, and its size. */
  method ReadHeader(pipe: Pipe, store: Store, oid: Bytes) returns (header: Option<(bool, nat)>)
    requires ValidId(oid) && pipe.rest == Reply(store, oid)
    modifies pipe
    ensures header.Some? <==> oid in store
    ensures oid in store ==>
              && header.value == (store[oid].kind == Blob, |store[oid].content|)
              && pipe.rest == store[oid].content + [NEWLINE]
  {
    HeaderParses(store, oid, if oid in store then store[oid].content + [NEWLINE] else []);
    var line := pipe.ReadLine();
    assert line == Header(store, oid);
    var words := Words(line, []);
    if |words| != 3 {
      return None;
    }
    DecimalRoundTrip(|store[oid].content|);
    return Some((words[1] == KindName(Blob), ParseDecimal(words[2])));
  }
}
