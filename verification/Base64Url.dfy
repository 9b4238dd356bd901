/**
 * The unpadded base64url codec on a 32-bit buffer that wraps, against the grouping of
 * sections 3.2, 4 and 5 of RFC 4648.
 */
module Base64Url {
  import opened Wrappers

  type Byte = b: int | 0 <= b < 256
  type Sextet = v: int | 0 <= v < 64

  const WORD := 0x1_0000_0000

  // ---- the alphabet ----

  /** The letter of a value: A-Z, a-z, 0-9, minus, underscore. */
  function Letter(v: Sextet): (c: char)
    ensures Position(c) == Some(v)
  {
    if v < 26 then ('A' as int + v) as char
    else if v < 52 then ('a' as int + v - 26) as char
    else if v < 62 then ('0' as int + v - 52) as char
    else if v == 62 then '-'
    else '_'
  }

  function Position(c: char): (v: Option<Sextet>) {
    if 'A' <= c <= 'Z' then Some(c as int - 'A' as int)
    else if 'a' <= c <= 'z' then Some(c as int - 'a' as int + 26)
    else if '0' <= c <= '9' then Some(c as int - '0' as int + 52)
    else if c == '-' then Some(62)
    else if c == '_' then Some(63)
    else None
  }

  /** Table 2 of RFC 4648, row by row, and no other letters are known. */
  lemma AlphabetIsStandard(v: Sextet, c: char)
    ensures v < 26 ==> Letter(v) == "ABCDEFGHIJKLMNOPQRSTUVWXYZ"[v]
    ensures 26 <= v < 52 ==> Letter(v) == "abcdefghijklmnopqrstuvwxyz"[v - 26]
    ensures 52 <= v < 62 ==> Letter(v) == "0123456789"[v - 52]
    ensures 62 <= v ==> Letter(v) == "-_"[v - 62]
    ensures Position(c) == Some(v) <==> c == Letter(v)
  {
    if Position(c).Some? { LetterOfPosition(c); }
  }

  lemma LetterOfPosition(c: char)
    requires Position(c).Some?
    ensures Letter(Position(c).value) == c
  {
  }

  function Letters(vs: seq<Sextet>): (s: string)
    ensures |s| == |vs|
  {
    seq(|vs|, i requires 0 <= i < |vs| => Letter(vs[i]))
  }

  /** The values of a text, None if any character is foreign. */
  function Values(s: string): (vs: Option<seq<Sextet>>)
    ensures vs.Some? ==> |vs.value| == |s|
  {
    if s == [] then Some([])
    else
      var before, v := Values(s[..|s| - 1]), Position(s[|s| - 1]);
      if before.None? || v.None? then None else Some(before.value + [v.value])
  }

  lemma {:induction false} ValuesSnoc(text: string, c: char)
    requires Values(text).Some? && Position(c).Some?
    ensures Values(text + [c]) == Some(Values(text).value + [Position(c).value])
  {
    assert (text + [c])[..|text|] == text;
  }

  // ---- the standard's grouping: three bytes are four sextets ----

  function First(a: Byte): Sextet { a / 4 }
  function Second(a: Byte, b: Byte): Sextet { a % 4 * 16 + b / 16 }
  function Third(b: Byte, c: Byte): Sextet { b % 16 * 4 + c / 64 }
  function Fourth(c: Byte): Sextet { c % 64 }

  function High(p: Sextet, q: Sextet): Byte { p * 4 + q / 16 }
  function Middle(q: Sextet, r: Sextet): Byte { q % 16 * 16 + r / 4 }
  function Low(r: Sextet, t: Sextet): Byte { r % 4 * 64 + t }

  function Quad(a: Byte, b: Byte, c: Byte): (q: seq<Sextet>)
    ensures |q| == 4
  {
    [First(a), Second(a, b), Third(b, c), Fourth(c)]
  }

  function Trio(p: Sextet, q: Sextet, r: Sextet, t: Sextet): (s: seq<Byte>)
    ensures |s| == 3
  {
    [High(p, q), Middle(q, r), Low(r, t)]
  }

  /** A last group of one or two bytes is filled with zero bits. */
  function Group(s: seq<Byte>): seq<Sextet> {
    if |s| == 0 then []
    else if |s| == 1 then Quad(s[0], 0, 0)[..2]
    else if |s| == 2 then Quad(s[0], s[1], 0)[..3]
    else Quad(s[0], s[1], s[2]) + Group(s[3..])
  }

  function Ungroup(vs: seq<Sextet>): seq<Byte> {
    if |vs| <= 1 then []
    else if |vs| == 2 then Trio(vs[0], vs[1], 0, 0)[..1]
    else if |vs| == 3 then Trio(vs[0], vs[1], vs[2], 0)[..2]
    else Trio(vs[0], vs[1], vs[2], vs[3]) + Ungroup(vs[4..])
  }

  lemma {:induction false} GroupTrio(s: seq<Byte>, rest: seq<Byte>)
    requires |s| == 3
    ensures Group(s + rest) == Quad(s[0], s[1], s[2]) + Group(rest)
  {
    assert (s + rest)[3..] == rest;
  }

  lemma {:induction false} GroupOnward(s: seq<Byte>, rest: seq<Byte>, b: seq<Byte>)
    requires |s| == 3 && Group(rest + b) == Group(rest) + Group(b)
    ensures Group(s + (rest + b)) == Group(s + rest) + Group(b)
  {
    GroupTrio(s, rest);
    GroupTrio(s, rest + b);
    Regroup(Quad(s[0], s[1], s[2]), Group(rest), Group(b));
  }

  lemma {:induction false} GroupConcat(a: seq<Byte>, b: seq<Byte>)
    requires |a| % 3 == 0
    ensures Group(a + b) == Group(a) + Group(b)
  {
    if a == [] {
      assert a + b == b;
    } else {
      GroupConcat(a[3..], b);
      GroupOnward(a[..3], a[3..], b);
      assert a[..3] + a[3..] == a && a[..3] + (a[3..] + b) == a + b;
    }
  }

  lemma Regroup<T>(x: seq<T>, y: seq<T>, z: seq<T>)
    ensures x + (y + z) == (x + y) + z
  {
  }

  lemma {:induction false} UngroupQuad(q: seq<Sextet>, rest: seq<Sextet>)
    requires |q| == 4
    ensures Ungroup(q + rest) == Trio(q[0], q[1], q[2], q[3]) + Ungroup(rest)
  {
    assert (q + rest)[4..] == rest;
  }

  lemma {:induction false} UngroupOnward(q: seq<Sextet>, rest: seq<Sextet>, b: seq<Sextet>)
    requires |q| == 4 && Ungroup(rest + b) == Ungroup(rest) + Ungroup(b)
    ensures Ungroup(q + (rest + b)) == Ungroup(q + rest) + Ungroup(b)
  {
    UngroupQuad(q, rest);
    UngroupQuad(q, rest + b);
    Regroup(Trio(q[0], q[1], q[2], q[3]), Ungroup(rest), Ungroup(b));
  }

  lemma {:induction false} UngroupConcat(a: seq<Sextet>, b: seq<Sextet>)
    requires |a| % 4 == 0
    ensures Ungroup(a + b) == Ungroup(a) + Ungroup(b)
  {
    if a == [] {
      assert a + b == b;
    } else {
      UngroupConcat(a[4..], b);
      UngroupOnward(a[..4], a[4..], b);
      assert a[..4] + a[4..] == a && a[..4] + (a[4..] + b) == a + b;
    }
  }

  /** Three bytes and their four sextets are one number, most significant digits first. */
  lemma QuadIsNumber(a: Byte, b: Byte, c: Byte)
    ensures var q := Quad(a, b, c);
      0x1_0000 * (a as int) + 0x100 * (b as int) + c as int
        == 0x4_0000 * (q[0] as int) + 0x1000 * (q[1] as int) + 0x40 * (q[2] as int) + q[3] as int
  {
  }

  /** Taking three bytes apart and putting them together again. */
  lemma ByteBits(a: Byte, b: Byte, c: Byte)
    ensures var q := Quad(a, b, c); Trio(q[0], q[1], q[2], q[3]) == [a, b, c]
  {
    assert High(First(a), Second(a, b)) == a;
    assert Middle(Second(a, b), Third(b, c)) == b;
    assert Low(Third(b, c), Fourth(c)) == c;
  }

  /** The first bytes of a group do not depend on the last sextets. */
  lemma TrioPrefix(p: Sextet, q: Sextet, r: Sextet, t: Sextet)
    ensures Trio(p, q, 0, 0)[..1] == Trio(p, q, r, t)[..1] && Trio(p, q, r, 0)[..2] == Trio(p, q, r, t)[..2]
  {
  }

  lemma UngroupPart(q: seq<Sextet>, n: nat)
    requires |q| == 4 && n in {1, 2}
    ensures Ungroup(q[..n + 1]) == Trio(q[0], q[1], q[2], q[3])[..n]
  {
    TrioPrefix(q[0], q[1], q[2], q[3]);
    var part := q[..n + 1];
    assert part[0] == q[0] && part[1] == q[1] && (n == 2 ==> part[2] == q[2]);
  }

  lemma PartialBytes(a: Byte, b: Byte, n: nat)
    requires n in {1, 2}
    ensures Ungroup(Quad(a, b, 0)[..n + 1]) == [a, b, 0][..n]
  {
    ByteBits(a, b, 0);
    UngroupPart(Quad(a, b, 0), n);
  }

  lemma {:induction false} UngroupOne(s: seq<Byte>)
    requires |s| == 1
    ensures Ungroup(Group(s)) == s
  {
    PartialBytes(s[0], 0, 1);
    assert Group(s) == Quad(s[0], 0, 0)[..2];
    assert [s[0], 0, 0][..1] == s;
  }

  lemma {:induction false} UngroupTwo(s: seq<Byte>)
    requires |s| == 2
    ensures Ungroup(Group(s)) == s
  {
    PartialBytes(s[0], s[1], 2);
    assert Group(s) == Quad(s[0], s[1], 0)[..3];
    assert [s[0], s[1], 0][..2] == s;
  }

  lemma {:induction false} UngroupGroup(s: seq<Byte>)
    ensures Ungroup(Group(s)) == s
  {
    if |s| == 1 {
      UngroupOne(s);
    } else if |s| == 2 {
      UngroupTwo(s);
    } else if |s| >= 3 {
      ByteBits(s[0], s[1], s[2]);
      UngroupGroup(s[3..]);
      UngroupQuad(Quad(s[0], s[1], s[2]), Group(s[3..]));
      assert s == [s[0], s[1], s[2]] + s[3..];
    }
  }

  /** No lone last sextet and no stray bits in the last one. */
  predicate Canonical(vs: seq<Sextet>) {
    |vs| % 4 != 1 && (|vs| % 4 == 2 ==> vs[|vs| - 1] % 16 == 0) && (|vs| % 4 == 3 ==> vs[|vs| - 1] % 4 == 0)
  }

  lemma SextetOne(p: Sextet, q: Sextet)
    ensures First(High(p, q)) == p && Second(High(p, q), 0) == q - q % 16
  {
    assert High(p, q) / 4 == p && High(p, q) % 4 == q / 16;
  }

  lemma SextetTwo(p: Sextet, q: Sextet, r: Sextet)
    ensures Second(High(p, q), Middle(q, r)) == q && Third(Middle(q, r), 0) == r - r % 4
  {
    assert High(p, q) % 4 == q / 16;
    assert Middle(q, r) / 16 == q % 16 && Middle(q, r) % 16 == r / 4;
  }

  lemma SextetThree(q: Sextet, r: Sextet, t: Sextet)
    ensures Third(Middle(q, r), Low(r, t)) == r && Fourth(Low(r, t)) == t
  {
    assert Middle(q, r) % 16 == r / 4;
    assert Low(r, t) / 64 == r % 4 && Low(r, t) % 64 == t;
  }

  lemma QuadOfTrio(p: Sextet, q: Sextet, r: Sextet, t: Sextet)
    ensures Quad(High(p, q), Middle(q, r), Low(r, t)) == [p, q, r, t]
  {
    SextetOne(p, q);
    SextetTwo(p, q, r);
    SextetThree(q, r, t);
  }

  lemma GroupShort(h: Byte, m: Byte)
    ensures Group([h]) == [First(h), Second(h, 0)] && Group([h, m]) == [First(h), Second(h, m), Third(m, 0)]
  {
    assert Quad(h, 0, 0)[..2] == [First(h), Second(h, 0)];
    assert Quad(h, m, 0)[..3] == [First(h), Second(h, m), Third(m, 0)];
  }

  lemma UngroupShort(p: Sextet, q: Sextet, r: Sextet)
    ensures Ungroup([p, q]) == [High(p, q)] && Ungroup([p, q, r]) == [High(p, q), Middle(q, r)]
  {
    assert Trio(p, q, 0, 0)[..1] == [High(p, q)];
    assert Trio(p, q, r, 0)[..2] == [High(p, q), Middle(q, r)];
  }

  lemma {:induction false} GroupTwo(vs: seq<Sextet>)
    requires |vs| == 2
    ensures Group(Ungroup(vs)) == vs <==> Canonical(vs)
  {
    var p, q := vs[0], vs[1];
    assert vs == [p, q];
    UngroupShort(p, q, 0);
    GroupShort(High(p, q), 0);
    SextetOne(p, q);
    SameItems([p, q], [p, q - q % 16]);
  }

  lemma {:induction false} GroupThree(vs: seq<Sextet>)
    requires |vs| == 3
    ensures Group(Ungroup(vs)) == vs <==> Canonical(vs)
  {
    var p, q, r := vs[0], vs[1], vs[2];
    assert vs == [p, q, r];
    UngroupShort(p, q, r);
    GroupShort(High(p, q), Middle(q, r));
    SextetOne(p, q);
    SextetTwo(p, q, r);
    SameItems([p, q, r], [p, q, r - r % 4]);
  }

  lemma SameItems(a: seq<int>, b: seq<int>)
    requires |a| == |b| && |a| > 0 && forall i :: 0 <= i < |a| - 1 ==> a[i] == b[i]
    ensures a == b <==> a[|a| - 1] == b[|a| - 1]
  {
  }

  lemma {:induction false} GroupUngroup(vs: seq<Sextet>)
    ensures Group(Ungroup(vs)) == vs <==> Canonical(vs)
  {
    if |vs| == 2 {
      GroupTwo(vs);
    } else if |vs| == 3 {
      GroupThree(vs);
    } else if |vs| >= 4 {
      GroupUngroup(vs[4..]);
      GroupMany(vs, vs[4..]);
      CanonicalTail(vs, vs[4..]);
    }
  }

  lemma CanonicalTail(vs: seq<Sextet>, rest: seq<Sextet>)
    requires |vs| >= 4 && rest == vs[4..]
    ensures Canonical(vs) <==> Canonical(rest)
  {
    assert |vs| % 4 == |rest| % 4;
  }

  lemma {:induction false} GroupMany(vs: seq<Sextet>, rest: seq<Sextet>)
    requires |vs| >= 4 && rest == vs[4..]
    ensures Group(Ungroup(vs)) == vs <==> Group(Ungroup(rest)) == rest
  {
    var four, trio := vs[..4], Trio(vs[0], vs[1], vs[2], vs[3]);
    assert Quad(trio[0], trio[1], trio[2]) == four by { QuadOfTrio(vs[0], vs[1], vs[2], vs[3]); }
    GroupTrio(trio, Ungroup(rest));
    assert vs == four + rest;
    SameTail(four, Group(Ungroup(rest)), rest);
  }

  lemma SameTail<T>(head: seq<T>, a: seq<T>, b: seq<T>)
    ensures head + a == head + b <==> a == b
  {
    assert (head + a)[|head|..] == a && (head + b)[|head|..] == b;
  }

  // ---- the encoder ----

  /** Right shift. */
  function Shifted(buffer: int, places: nat): (r: int)
    requires buffer >= 0
    ensures r >= 0
  {
    if places == 0 then buffer else Shifted(buffer / 2, places - 1)
  }

  lemma {:induction false} ShiftedTwice(buffer: int, places: nat)
    requires buffer >= 0
    ensures Shifted(buffer, places + 2) == Shifted(buffer / 4, places)
  {
    assert Shifted(buffer, places + 2) == Shifted(buffer / 2, places + 1) == Shifted(buffer / 2 / 2, places);
    assert buffer / 2 / 2 == buffer / 4;
  }

  lemma {:induction false} ShiftedFew(buffer: int)
    requires buffer >= 0
    ensures Shifted(buffer, 2) == buffer / 4 && Shifted(buffer, 4) == buffer / 16 && Shifted(buffer, 6) == buffer / 64
  {
    ShiftedTwice(buffer, 0);
    ShiftedTwice(buffer, 2);
    ShiftedTwice(buffer / 4, 0);
    ShiftedTwice(buffer, 4);
    ShiftedTwice(buffer / 4, 2);
    ShiftedTwice(buffer / 16, 0);
    assert buffer / 4 / 4 == buffer / 16 && buffer / 16 / 4 == buffer / 64;
  }

  /** The sextets already complete after some bytes of a group. */
  function Complete(part: seq<Byte>): (vs: seq<Sextet>) {
    if |part| == 0 then []
    else if |part| == 1 then [First(part[0])]
    else [First(part[0]), Second(part[0], part[1])]
  }

  /** The low six bits from a position on. */
  function Field(buffer: int, place: nat): Sextet
    requires buffer >= 0
  {
    Shifted(buffer, place) % 64
  }

  /** What the inner loop still has to push: one letter for every six bits that are complete. */
  function Due(buffer: int, bits: int): string
    requires buffer >= 0
    decreases bits
  {
    if bits < 0 then "" else [Letter(Field(buffer, bits))] + Due(buffer, bits - 6)
  }

  /** The low bits of the buffer that no complete sextet has used yet. */
  predicate Holds(part: seq<Byte>, buffer: int) {
    && 0 <= buffer < WORD
    && (|part| == 1 ==> buffer % 4 == part[0] % 4)
    && (|part| == 2 ==> buffer % 16 == part[1] % 16)
  }

  ghost predicate Encoding(done: seq<Byte>, part: seq<Byte>, buffer: int, bits: int, output: string) {
    && |part| < 3 && |done| % 3 == 0 && bits == 2 * |part| - 6 && Holds(part, buffer)
    && output == Letters(Group(done) + Complete(part))
  }

  /** Shifting a word left by eight loses only bits nobody reads again. */
  function Shift8(buffer: int, c: Byte): (next: int)
    requires 0 <= buffer < WORD
    ensures 0 <= next < WORD
  {
    buffer * 256 % WORD + c
  }

  lemma Shift8Whole(buffer: int, c: Byte)
    requires 0 <= buffer < WORD
    ensures Shift8(buffer, c) == 256 * (buffer - 0x100_0000 * (buffer * 256 / WORD)) + c
  {
  }

  // Division with remainder, one divisor at a time.

  lemma ByFour(x: int, q: int, r: int)
    requires x == 4 * q + r && 0 <= r < 4
    ensures x / 4 == q && x % 4 == r
  {
  }

  lemma BySixteen(x: int, q: int, r: int)
    requires x == 16 * q + r && 0 <= r < 16
    ensures x / 16 == q && x % 16 == r
  {
  }

  lemma BySixtyFour(x: int, q: int, r: int)
    requires x == 64 * q + r && 0 <= r < 64
    ensures x / 64 == q && x % 64 == r
  {
  }

  lemma ByOctet(x: int, q: int, r: int)
    requires x == 256 * q + r && 0 <= r < 256
    ensures x / 256 == q && x % 256 == r
  {
  }

  lemma FieldTwo(buffer: int, c: Byte)
    requires 0 <= buffer < WORD
    ensures Field(Shift8(buffer, c), 2) == First(c) && Shift8(buffer, c) % 4 == c % 4
  {
    ShiftedFew(Shift8(buffer, c));
    Shift8Whole(buffer, c);
    var high := buffer - 0x100_0000 * (buffer * 256 / WORD);
    ByFour(Shift8(buffer, c), 64 * high + c / 4, c % 4);
    BySixtyFour(64 * high + c / 4, high, c / 4);
  }

  lemma LowFour(buffer: int, c: Byte)
    requires 0 <= buffer < WORD
    ensures Shift8(buffer, c) % 16 == c % 16
  {
    Shift8Whole(buffer, c);
    var high := buffer - 0x100_0000 * (buffer * 256 / WORD);
    BySixteen(Shift8(buffer, c), 16 * high + c / 16, c % 16);
  }

  lemma FieldFour(buffer: int, c: Byte)
    requires 0 <= buffer < WORD
    ensures Field(Shift8(buffer, c), 4) == buffer % 4 * 16 + c / 16
  {
    ShiftedFew(Shift8(buffer, c));
    Shift8Whole(buffer, c);
    var high, field := buffer / 4 - 0x40_0000 * (buffer * 256 / WORD), buffer % 4 * 16 + c / 16;
    BySixteen(Shift8(buffer, c), 64 * high + field, c % 16);
    BySixtyFour(64 * high + field, high, field);
  }

  lemma FieldSix(buffer: int, c: Byte)
    requires 0 <= buffer < WORD
    ensures Field(Shift8(buffer, c), 6) == buffer % 16 * 4 + c / 64
  {
    ShiftedFew(Shift8(buffer, c));
    Shift8Whole(buffer, c);
    var high, field := buffer / 16 - 0x10_0000 * (buffer * 256 / WORD), buffer % 16 * 4 + c / 64;
    BySixtyFour(Shift8(buffer, c), 64 * high + field, c % 64);
    BySixtyFour(64 * high + field, high, field);
  }

  lemma FieldZero(buffer: int, c: Byte)
    requires 0 <= buffer < WORD
    ensures Field(Shift8(buffer, c), 0) == Fourth(c)
  {
    Shift8Whole(buffer, c);
    var high := buffer - 0x100_0000 * (buffer * 256 / WORD);
    BySixtyFour(Shift8(buffer, c), 4 * high + c / 64, c % 64);
  }

  lemma {:induction false} DueUnrolled(buffer: int)
    requires buffer >= 0
    ensures Due(buffer, 2) == [Letter(Field(buffer, 2))] && Due(buffer, 4) == [Letter(Field(buffer, 4))]
    ensures Due(buffer, 6) == [Letter(Field(buffer, 6)), Letter(Field(buffer, 0))]
  {
    assert Due(buffer, 0) == [Letter(Field(buffer, 0))] + Due(buffer, -6);
  }

  lemma LettersConcat(a: seq<Sextet>, b: seq<Sextet>)
    ensures Letters(a + b) == Letters(a) + Letters(b)
  {
  }

  lemma {:induction false} GroupOfThree(done: seq<Byte>, a: Byte, b: Byte, c: Byte)
    requires |done| % 3 == 0
    ensures Group(done + [a, b, c]) == Group(done) + Quad(a, b, c)
  {
    GroupConcat(done, [a, b, c]);
    GroupTrio([a, b, c], []);
    assert [a, b, c] + [] == [a, b, c];
    assert Quad(a, b, c) + Group([]) == Quad(a, b, c);
  }

  /** Letters pushed so far, then more. */
  lemma {:induction false} PushedOn(done: seq<Byte>, part: seq<Byte>, tail: seq<Sextet>)
    ensures Letters(Group(done) + Complete(part)) + Letters(tail) == Letters(Group(done) + (Complete(part) + tail))
  {
    LettersConcat(Group(done) + Complete(part), tail);
    Regroup(Group(done), Complete(part), tail);
  }

  /** The first byte of a group completes one sextet. */
  lemma EncodeFirst(done: seq<Byte>, buffer: int, output: string, c: Byte)
    requires Encoding(done, [], buffer, -6, output)
    ensures Encoding(done, [c], Shift8(buffer, c), -4, output + Due(Shift8(buffer, c), 2))
  {
    FieldTwo(buffer, c);
    DueUnrolled(Shift8(buffer, c));
    PushedOn(done, [], [First(c)]);
    assert Complete([]) + [First(c)] == Complete([c]);
  }

  /** The second byte completes another one. */
  lemma EncodeSecond(done: seq<Byte>, a: Byte, buffer: int, output: string, c: Byte)
    requires Encoding(done, [a], buffer, -4, output)
    ensures Encoding(done, [a, c], Shift8(buffer, c), -2, output + Due(Shift8(buffer, c), 4))
  {
    FieldFour(buffer, c);
    LowFour(buffer, c);
    DueUnrolled(Shift8(buffer, c));
    PushedOn(done, [a], [Second(a, c)]);
    assert Complete([a]) + [Second(a, c)] == Complete([a, c]);
  }

  lemma {:induction false} EncodedWhole(all: seq<Byte>, buffer: int, output: string)
    requires |all| % 3 == 0 && 0 <= buffer < WORD && output == Letters(Group(all))
    ensures Encoding(all, [], buffer, -6, output)
  {
    assert Group(all) + Complete([]) == Group(all);
  }

  /** The third byte completes the last two. */
  lemma EncodeThird(done: seq<Byte>, a: Byte, b: Byte, buffer: int, output: string, c: Byte)
    requires Encoding(done, [a, b], buffer, -2, output)
    ensures Encoding(done + [a, b, c], [], Shift8(buffer, c), -6, output + Due(Shift8(buffer, c), 6))
  {
    DueThird([a, b], buffer, c);
    PushedOn(done, [a, b], [Third(b, c), Fourth(c)]);
    QuadInParts(a, b, c);
    GroupOfThree(done, a, b, c);
    EncodedWhole(done + [a, b, c], Shift8(buffer, c), output + Due(Shift8(buffer, c), 6));
  }

  lemma QuadInParts(a: Byte, b: Byte, c: Byte)
    ensures Quad(a, b, c) == Complete([a, b]) + [Third(b, c), Fourth(c)]
  {
  }

  lemma DueThird(part: seq<Byte>, buffer: int, c: Byte)
    requires |part| == 2 && Holds(part, buffer)
    ensures Due(Shift8(buffer, c), 6) == Letters([Third(part[1], c), Fourth(c)])
  {
    FieldSix(buffer, c);
    FieldZero(buffer, c);
    DueUnrolled(Shift8(buffer, c));
  }

  lemma EncodeStep(done: seq<Byte>, part: seq<Byte>, buffer: int, bits: int, output: string, c: Byte)
    returns (after: seq<Byte>, rest: seq<Byte>)
    requires Encoding(done, part, buffer, bits, output)
    ensures after + rest == done + part + [c] && 2 <= bits + 8 <= 6
    ensures Encoding(after, rest, Shift8(buffer, c), (bits + 8) % 6 - 6, output + Due(Shift8(buffer, c), bits + 8))
  {
    if |part| == 0 {
      assert part == [];
      EncodeFirst(done, buffer, output, c);
      after, rest := done, [c];
      assert done + part == done;
    } else if |part| == 1 {
      assert part == [part[0]];
      EncodeSecond(done, part[0], buffer, output, c);
      after, rest := done, [part[0], c];
      Regroup(done, part, [c]);
      assert part + [c] == rest;
    } else {
      assert part == [part[0], part[1]];
      EncodeThird(done, part[0], part[1], buffer, output, c);
      after, rest := done + [part[0], part[1], c], [];
      Regroup(done, part, [c]);
      assert part + [c] == [part[0], part[1], c] && after + rest == after;
    }
  }

  /** What is left when the input ends: the pending bits, filled up with zeros. */
  lemma {:induction false} EncodeEnd(done: seq<Byte>, part: seq<Byte>, buffer: int, bits: int, output: string)
    requires Encoding(done, part, buffer, bits, output)
    ensures bits == -6 ==> output == Letters(Group(done + part))
    ensures bits > -6 ==> output + [Letter(Field(Shift8(buffer, 0), bits + 8))] == Letters(Group(done + part))
  {
    GroupConcat(done, part);
    if |part| == 0 {
      assert Group(done) + Complete(part) == Group(done) + Group(part);
    } else if |part| == 1 {
      EndOne(done, part, buffer, output);
    } else {
      EndTwo(done, part, buffer, output);
    }
  }

  lemma {:induction false} EndOne(done: seq<Byte>, part: seq<Byte>, buffer: int, output: string)
    requires Encoding(done, part, buffer, -4, output)
    ensures output + [Letter(Field(Shift8(buffer, 0), 4))] == Letters(Group(done) + Group(part))
  {
    FieldFour(buffer, 0);
    PushedOn(done, part, [Second(part[0], 0)]);
    assert Group(part) == Complete(part) + [Second(part[0], 0)];
  }

  lemma {:induction false} EndTwo(done: seq<Byte>, part: seq<Byte>, buffer: int, output: string)
    requires Encoding(done, part, buffer, -2, output)
    ensures output + [Letter(Field(Shift8(buffer, 0), 6))] == Letters(Group(done) + Group(part))
  {
    FieldSix(buffer, 0);
    PushedOn(done, part, [Third(part[1], 0)]);
    assert Group(part) == Complete(part) + [Third(part[1], 0)];
  }

  /** Pushes a letter for every six bits that are complete. */
  method Push(buffer: int, ready: int, before: string) returns (output: string, bits: int)
    requires buffer >= 0 && 0 <= ready <= 6
    ensures output == before + Due(buffer, ready) && bits == ready % 6 - 6
  {
    output, bits := before, ready;
    while bits >= 0
      invariant output + Due(buffer, bits) == before + Due(buffer, ready)
      invariant -6 <= bits <= ready && (ready - bits) % 6 == 0
    {
      var letter := Letter(Field(buffer, bits));
      Regroup(output, [letter], Due(buffer, bits - 6));
      output := output + [letter];
      bits := bits - 6;
    }
  }

  /** Encodes byte by byte; the buffer keeps only its low 32 bits. */
  method Encode(value: seq<Byte>) returns (output: string)
    ensures output == Letters(Group(value))
  {
    output := "";
    var bits, buffer := -6, 0;
    ghost var done: seq<Byte>, part: seq<Byte> := [], [];
    for i := 0 to |value|
      invariant value[..i] == done + part && Encoding(done, part, buffer, bits, output)
    {
      assert value[..i + 1] == done + part + [value[i]];
      done, part := EncodeStep(done, part, buffer, bits, output, value[i]);
      buffer := buffer * 256 % WORD + value[i];
      output, bits := Push(buffer, bits + 8, output);
    }
    assert value == done + part;
    EncodeEnd(done, part, buffer, bits, output);
    if bits > -6 { output := output + [Letter(Field(buffer * 256 % WORD, bits + 8))]; }
  }

  // ---- the decoder ----

  /** The bytes already complete after some sextets of a group. */
  function Whole(part: seq<Sextet>): (s: seq<Byte>) {
    if |part| <= 1 then []
    else if |part| == 2 then [High(part[0], part[1])]
    else [High(part[0], part[1]), Middle(part[1], part[2])]
  }

  ghost predicate Decoding(done: seq<Sextet>, part: seq<Sextet>, buffer: int, bits: int, output: seq<Byte>) {
    && |part| < 4 && |done| % 4 == 0 && 0 <= buffer < WORD
    && output == Ungroup(done) + Whole(part)
    && bits == (if |part| == 0 then -8 else -2 * |part|)
    && (|part| == 1 ==> buffer % 64 == part[0])
    && (|part| == 2 ==> buffer % 16 == part[1] % 16)
    && (|part| == 3 ==> buffer % 4 == part[2] % 4)
  }

  /** The byte from a position on. */
  function Octet(buffer: int, place: nat): Byte
    requires buffer >= 0
  {
    Shifted(buffer, place) % 256
  }

  function Shift6(buffer: int, v: Sextet): (next: int)
    requires 0 <= buffer < WORD
    ensures 0 <= next < WORD
  {
    buffer * 64 % WORD + v
  }

  lemma Shift6Whole(buffer: int, v: Sextet)
    requires 0 <= buffer < WORD
    ensures Shift6(buffer, v) == 64 * (buffer - 0x400_0000 * (buffer * 64 / WORD)) + v
  {
  }

  lemma HighOctet(buffer: int, v: Sextet)
    requires 0 <= buffer < WORD
    ensures Octet(Shift6(buffer, v), 4) == buffer % 64 * 4 + v / 16
  {
    ShiftedFew(Shift6(buffer, v));
    Shift6Whole(buffer, v);
    var high, octet := buffer / 64 - 0x10_0000 * (buffer * 64 / WORD), buffer % 64 * 4 + v / 16;
    BySixteen(Shift6(buffer, v), 256 * high + octet, v % 16);
    ByOctet(256 * high + octet, high, octet);
  }

  lemma MiddleOctet(buffer: int, v: Sextet)
    requires 0 <= buffer < WORD
    ensures Octet(Shift6(buffer, v), 2) == buffer % 16 * 16 + v / 4
  {
    ShiftedFew(Shift6(buffer, v));
    Shift6Whole(buffer, v);
    var high, octet := buffer / 16 - 0x40_0000 * (buffer * 64 / WORD), buffer % 16 * 16 + v / 4;
    ByFour(Shift6(buffer, v), 256 * high + octet, v % 4);
    ByOctet(256 * high + octet, high, octet);
  }

  lemma LowOctet(buffer: int, v: Sextet)
    requires 0 <= buffer < WORD
    ensures Octet(Shift6(buffer, v), 0) == buffer % 4 * 64 + v
  {
    Shift6Whole(buffer, v);
    ByOctet(Shift6(buffer, v), buffer / 4 - 0x100_0000 * (buffer * 64 / WORD), buffer % 4 * 64 + v);
  }

  lemma LowSextet(buffer: int, v: Sextet)
    requires 0 <= buffer < WORD
    ensures var next := Shift6(buffer, v); next % 64 == v && next % 16 == v % 16 && next % 4 == v % 4
  {
    Shift6Whole(buffer, v);
    var high := buffer - 0x400_0000 * (buffer * 64 / WORD);
    BySixtyFour(Shift6(buffer, v), high, v);
    BySixteen(Shift6(buffer, v), 4 * high + v / 16, v % 16);
    ByFour(Shift6(buffer, v), 16 * high + v / 4, v % 4);
  }

  /** One more sextet that does not fill the group. */
  lemma DecodeInside(done: seq<Sextet>, part: seq<Sextet>, buffer: int, bits: int, output: seq<Byte>, v: Sextet)
    requires Decoding(done, part, buffer, bits, output) && |part| < 3
    ensures var next := Shift6(buffer, v);
      && (bits + 6 >= 0 <==> |part| > 0)
      && if |part| == 0 then Decoding(done, part + [v], next, bits + 6, output)
         else Decoding(done, part + [v], next, bits - 2, output + [Octet(next, bits + 6)])
  {
    LowSextet(buffer, v);
    if |part| == 1 {
      HighOctet(buffer, v);
      assert Whole(part + [v]) == Whole(part) + [High(part[0], v)];
      Regroup(Ungroup(done), Whole(part), [High(part[0], v)]);
    } else if |part| == 2 {
      MiddleOctet(buffer, v);
      assert Whole(part + [v]) == Whole(part) + [Middle(part[1], v)];
      Regroup(Ungroup(done), Whole(part), [Middle(part[1], v)]);
    }
  }

  /** The sextet that fills it. */
  lemma DecodeLast(done: seq<Sextet>, part: seq<Sextet>, buffer: int, output: seq<Byte>, v: Sextet)
    requires Decoding(done, part, buffer, -6, output) && |part| == 3
    ensures Decoding(done + part + [v], [], Shift6(buffer, v), -8, output + [Octet(Shift6(buffer, v), 0)])
  {
    LastFour(done, part, v);
    FourMore(done, part, v);
    LastOctet(part[2], buffer, v);
    DecodedWhole(done + part + [v], Shift6(buffer, v), output + [Low(part[2], v)]);
  }

  lemma {:induction false} LastFour(done: seq<Sextet>, part: seq<Sextet>, v: Sextet)
    requires |done| % 4 == 0 && |part| == 3
    ensures Ungroup(done + part + [v]) == Ungroup(done) + Whole(part) + [Low(part[2], v)]
  {
    FourAreWhole(part, v);
    Regroup(done, part, [v]);
    Appended(done, part + [v], Whole(part), [Low(part[2], v)]);
  }

  lemma {:induction false} Appended(done: seq<Sextet>, four: seq<Sextet>, whole: seq<Byte>, last: seq<Byte>)
    requires |done| % 4 == 0 && Ungroup(four) == whole + last
    ensures Ungroup(done + four) == Ungroup(done) + whole + last
  {
    UngroupConcat(done, four);
    Regroup(Ungroup(done), whole, last);
  }

  lemma FourMore(done: seq<Sextet>, part: seq<Sextet>, v: Sextet)
    requires |done| % 4 == 0 && |part| == 3
    ensures |done + part + [v]| % 4 == 0
  {
    assert |done + part + [v]| == |done| + 4;
  }

  lemma {:induction false} FourAreWhole(part: seq<Sextet>, v: Sextet)
    requires |part| == 3
    ensures Ungroup(part + [v]) == Whole(part) + [Low(part[2], v)]
  {
    var four := part + [v];
    UngroupQuad(four, []);
    assert four + [] == four && Trio(four[0], four[1], four[2], four[3]) + Ungroup([]) == Whole(part) + [Low(part[2], v)];
  }

  lemma LastOctet(third: Sextet, buffer: int, v: Sextet)
    requires 0 <= buffer < WORD && buffer % 4 == third % 4
    ensures Octet(Shift6(buffer, v), 0) == Low(third, v)
  {
    LowOctet(buffer, v);
  }

  lemma {:induction false} DecodedWhole(all: seq<Sextet>, buffer: int, output: seq<Byte>)
    requires |all| % 4 == 0 && 0 <= buffer < WORD && output == Ungroup(all)
    ensures Decoding(all, [], buffer, -8, output)
  {
    assert Ungroup(all) + Whole([]) == Ungroup(all);
  }

  lemma DecodeStep(done: seq<Sextet>, part: seq<Sextet>, buffer: int, bits: int, output: seq<Byte>, v: Sextet)
    returns (after: seq<Sextet>, rest: seq<Sextet>)
    requires Decoding(done, part, buffer, bits, output)
    ensures after + rest == done + part + [v]
    ensures var next := Shift6(buffer, v);
      if bits + 6 >= 0 then Decoding(after, rest, next, bits - 2, output + [Octet(next, bits + 6)])
      else Decoding(after, rest, next, bits + 6, output)
  {
    if |part| < 3 {
      DecodeInside(done, part, buffer, bits, output, v);
      after, rest := done, part + [v];
      Regroup(done, part, [v]);
    } else {
      assert bits == -6;
      DecodeLast(done, part, buffer, output, v);
      after, rest := done + part + [v], [];
      assert after + rest == after;
    }
  }

  lemma {:induction false} DecodeEnd(done: seq<Sextet>, part: seq<Sextet>, buffer: int, bits: int, output: seq<Byte>)
    requires Decoding(done, part, buffer, bits, output)
    ensures output == Ungroup(done + part)
  {
    UngroupConcat(done, part);
    assert Ungroup(part) == Whole(part);
  }

  function Decoded(text: string): Option<seq<Byte>> {
    var vs := Values(text);
    if vs.None? then None else Some(Ungroup(vs.value))
  }

  lemma {:induction false} ForeignPrefix(text: string, i: nat)
    requires i < |text| && Position(text[i]).None?
    ensures Values(text).None?
  {
    if i < |text| - 1 { ForeignPrefix(text[..|text| - 1], i); }
  }

  /** Decodes character by character; None as soon as one is foreign to the alphabet. */
  method Decode(text: string) returns (output: Option<seq<Byte>>)
    ensures output == Decoded(text)
  {
    var bytes: seq<Byte>, bits, buffer := [], -8, 0;
    ghost var done: seq<Sextet>, part: seq<Sextet> := [], [];
    assert text[..0] == "" && done + part == [];
    for i := 0 to |text|
      invariant Values(text[..i]) == Some(done + part) && Decoding(done, part, buffer, bits, bytes)
    {
      var position := Position(text[i]);
      if position.None? {
        ForeignPrefix(text, i);
        return None;
      }
      var v := position.value;
      assert text[..i + 1] == text[..i] + [text[i]];
      ValuesSnoc(text[..i], text[i]);
      done, part := DecodeStep(done, part, buffer, bits, bytes, v);
      buffer := buffer * 64 % WORD + v;
      bits := bits + 6;
      if bits >= 0 {
        bytes := bytes + [Octet(buffer, bits)];
        bits := bits - 8;
      }
    }
    assert text[..|text|] == text;
    DecodeEnd(done, part, buffer, bits, bytes);
    output := Some(bytes);
  }

  // ---- round trips ----

  function Encoded(value: seq<Byte>): string { Letters(Group(value)) }

  lemma {:induction false} ValuesOfLetters(vs: seq<Sextet>)
    ensures Values(Letters(vs)) == Some(vs)
  {
    if vs != [] {
      var n := |vs| - 1;
      ValuesOfLetters(vs[..n]);
      assert Letters(vs)[..n] == Letters(vs[..n]);
      assert vs == vs[..n] + [vs[n]];
    }
  }

  lemma {:induction false} LettersOfValues(text: string)
    requires Values(text).Some?
    ensures Letters(Values(text).value) == text
  {
    if text != [] {
      var n := |text| - 1;
      LettersOfValues(text[..n]);
      LetterOfPosition(text[n]);
      assert text == text[..n] + [text[n]];
    }
  }

  lemma {:induction false} GroupLength(s: seq<Byte>)
    ensures |Group(s)| == (4 * |s| + 2) / 3
  {
    if |s| >= 3 { GroupLength(s[3..]); }
  }

  /** Every byte string survives; its text has ceil(4n/3) characters, all of the alphabet, no padding. */
  lemma RoundTrip(value: seq<Byte>)
    ensures Decoded(Encoded(value)) == Some(value)
    ensures 3 * |Encoded(value)| >= 4 * |value| && 3 * (|Encoded(value)| - 1) < 4 * |value|
    ensures forall c :: c in Encoded(value) ==> Position(c).Some?
  {
    ValuesOfLetters(Group(value));
    UngroupGroup(value);
    GroupLength(value);
  }

  /** A text that decodes is the encoding of what it decodes to exactly when it is canonical; the
      decoder also accepts lone last sextets and stray bits. */
  lemma {:induction false} ReverseTripExactly(text: string)
    requires Values(text).Some?
    ensures Decoded(text).Some? && (Encoded(Decoded(text).value) == text <==> Canonical(Values(text).value))
  {
    var vs := Values(text).value;
    LettersOfValues(text);
    GroupUngroup(vs);
    if Letters(Group(Ungroup(vs))) == Letters(vs) {
      ValuesOfLetters(Group(Ungroup(vs)));
      ValuesOfLetters(vs);
    }
  }

  lemma PairOfLetters(c: char, d: char)
    requires Position(c).Some? && Position(d).Some?
    ensures Values([c]) == Some([Position(c).value]) && Values([c, d]) == Some([Position(c).value, Position(d).value])
  {
    var p, q, none: seq<Sextet> := Position(c).value, Position(d).value, [];
    ValuesSnoc([], c);
    assert [] + [c] == [c] && none + [p] == [p];
    ValuesSnoc([c], d);
    assert [c] + [d] == [c, d] && [p] + [q] == [p, q];
  }

  /** A second letter with bits that belong to no byte comes back with them cleared. */
  lemma PairComesBack(c: char, d: char)
    requires Position(c).Some? && Position(d).Some?
    ensures Decoded([c, d]) == Some([High(Position(c).value, Position(d).value)])
    ensures var v := Position(d).value; Encoded([High(Position(c).value, v)]) == [c, Letter(v - v % 16)]
  {
    var p, q := Position(c).value, Position(d).value;
    PairOfLetters(c, d);
    UngroupShort(p, q, 0);
    SextetOne(p, q);
    GroupShort(High(p, q), 0);
    LetterOfPosition(c);
  }

  /** The two ways to fall short: a lone last letter is dropped, stray bits are cleared. */
  lemma LooseTexts()
    ensures Decoded("A") == Some([]) && Encoded([]) == ""
    ensures Decoded("AB") == Some([0]) && Encoded([0]) == "AA"
  {
    PairOfLetters('A', 'B');
    PairComesBack('A', 'B');
    assert ['A'] == "A" && ['A', 'B'] == "AB" && ['A', Letter(0)] == "AA";
  }
}
