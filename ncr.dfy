/** Numeric character references in Linguist's message texts
    (messagemodel.cpp): resolveNcr decodes `&#N;` and `&#xH;`, showNcr makes
    non-printable units visible as `&#xH;`. */
module Ncr {
  import opened Wrappers
  import opened Text

  /** The largest Unicode code point (QChar::LastValidCodePoint). */
  const LAST_VALID_CODE_POINT: nat := 0x10FFFF

  /** A reference `&#` starts at position `i` of `s`. */
  predicate RefAt(s: UString, i: int) {
    0 <= i < |s| - 1 && s[i] == AMP && s[i + 1] == HASH
  }

  /** Text that cannot take part in a reference when something follows it:
      it holds no `&#` and does not end in `&`. */
  predicate Plain(p: UString) {
    (forall i | 0 <= i < |p| :: !RefAt(p, i)) && (p == [] || p[|p| - 1] != AMP)
  }

  /** QStringView::indexOf(u"&#"): the first position of `&#`, or -1. */
  function IndexOfRef(s: UString): (r: int)
    ensures -1 <= r < |s|
    ensures r >= 0 ==> RefAt(s, r)
    decreases |s|
  {
    if |s| < 2 then -1
    else if s[0] == AMP && s[1] == HASH then 0
    else
      var k := IndexOfRef(s[1..]);
      if k < 0 then -1 else k + 1
  }

  /** No `&#` comes before the position IndexOfRef reports (none at all,
      when it reports -1). */
  lemma {:induction false} IndexOfRefFirst(s: UString)
    ensures forall i | 0 <= i < (if IndexOfRef(s) < 0 then |s| else IndexOfRef(s)) :: !RefAt(s, i)
    decreases |s|
  {
    if |s| >= 2 && !(s[0] == AMP && s[1] == HASH) {
      IndexOfRefFirst(s[1..]);
      forall i | 1 <= i < |s| ensures RefAt(s, i) == RefAt(s[1..], i - 1) {}
    }
  }

  /** QStringView::indexOf(c): the first position of `c`, or -1. */
  function IndexOfUnit(s: UString, c: CodeUnit): (r: int)
    ensures -1 <= r < |s|
    ensures r >= 0 ==> s[r] == c
    decreases |s|
  {
    if s == [] then -1
    else if s[0] == c then 0
    else
      var k := IndexOfUnit(s[1..], c);
      if k < 0 then -1 else k + 1
  }

  /** `c` does not occur before the position IndexOfUnit reports (nowhere,
      when it reports -1). */
  lemma {:induction false} IndexOfUnitFirst(s: UString, c: CodeUnit)
    ensures forall i | 0 <= i < (if IndexOfUnit(s, c) < 0 then |s| else IndexOfUnit(s, c)) :: s[i] != c
    decreases |s|
  {
    if s != [] && s[0] != c {
      IndexOfUnitFirst(s[1..], c);
    }
  }

  /** The first `c` in `s` is at `r`. */
  lemma {:induction false} IndexOfUnitIs(s: UString, c: CodeUnit, r: nat)
    requires r < |s| && s[r] == c
    requires forall i | 0 <= i < r :: s[i] != c
    ensures IndexOfUnit(s, c) == r
  {
    IndexOfUnitFirst(s, c);
    var k := IndexOfUnit(s, c);
    if k >= 0 { assert s[k] == c; }
  }

  /** QChar::highSurrogate / lowSurrogate, or the single unit itself. */
  function Encode(c: nat): (r: UString)
    requires c <= LAST_VALID_CODE_POINT
    ensures 1 <= |r| <= 2
    ensures c < 0x1_0000 ==> r == [c as CodeUnit]
    ensures c >= 0x1_0000 ==>
      && |r| == 2
      && 0xD800 <= r[0] < 0xDC00 && 0xDC00 <= r[1] < 0xE000
      && (r[0] as int - 0xD800) * 0x400 + (r[1] as int - 0xDC00) + 0x1_0000 == c
  {
    if c >= 0x1_0000 then [(c / 0x400 + 0xD7C0) as CodeUnit, (c % 0x400 + 0xDC00) as CodeUnit] else [c as CodeUnit]
  }

  /** The opening of a reference: `&#x` for hexadecimal, `&#` for decimal. */
  function Meta(hex: bool): (r: UString)
    ensures |r| == if hex then 3 else 2
  {
    if hex then [AMP, HASH, LOWER_X] else [AMP, HASH]
  }

  function BaseOf(hex: bool): (r: nat)
    ensures IsBase(r)
  {
    if hex then 16 else 10
  }

  /** The units between `&#` (or `&#x`) and the first `;` after them read
      as a code point: at least one digit, nothing but digits, value at most
      0x10FFFF. */
  predicate Decodes(afterMeta: UString, base: nat)
    requires IsBase(base)
  {
    var e := IndexOfUnit(afterMeta, SEMI);
    e > 0 && ParseNum(afterMeta[..e], base).Some?
      && ParseNum(afterMeta[..e], base).value <= LAST_VALID_CODE_POINT
  }

  /** What one round at a reference appends, and the text left to scan. */
  datatype Round = Round(out: UString, rest: UString)

  /** The round at a `&#` at the start of `s` that has a unit after it: a
      decodable reference becomes its code point and scanning resumes after
      the `;`; otherwise `&#` (or `&#x`) is copied as it stands and scanning
      resumes right after it. */
  function Front(s: UString): (r: Round)
    requires RefAt(s, 0) && |s| > 2
    ensures |r.rest| < |s|
  {
    var hex := s[2] == LOWER_X;
    var rest := s[|Meta(hex)|..];
    if Decodes(rest, BaseOf(hex)) then
      var e := IndexOfUnit(rest, SEMI);
      Round(Encode(ParseNum(rest[..e], BaseOf(hex)).value), rest[e + 1..])
    else
      Round(s[..|Meta(hex)|], rest)
  }

  /** What resolveNcr returns, read from the front: a unit that does not
      start a reference (or that has nothing after its `&#`) is copied, a
      reference is handled by Front. */
  function Resolve(s: UString): (r: UString)
    ensures |r| <= |s|
    decreases |s|
  {
    if |s| <= 2 then s
    else if RefAt(s, 0) then Front(s).out + Resolve(Front(s).rest)
    else [s[0]] + Resolve(s[1..])
  }

  /** Units before the first `&#` are copied as they stand. */
  lemma {:induction false} ResolveSkip(s: UString, k: nat)
    requires k <= |s|
    requires forall i | 0 <= i < k :: !RefAt(s, i)
    ensures Resolve(s) == s[..k] + Resolve(s[k..])
    decreases k
  {
    if k > 0 {
      if |s| <= 2 {
        assert s[..k] + s[k..] == s;
      } else {
        assert !RefAt(s, 0);
        var t := s[1..];
        forall i | 0 <= i < k - 1 ensures !RefAt(t, i) {
          assert !RefAt(s, i + 1);
        }
        ResolveSkip(t, k - 1);
        assert t[k - 1..] == s[k..];
        assert [s[0]] + t[..k - 1] == s[..k];
      }
    }
  }

  /** resolveNcr's view of one round: with `offset` the first `&#`, the
      text before it is copied and the round at it follows. */
  lemma {:induction false} ResolveAt(str: UString, offset: nat)
    requires offset == IndexOfRef(str) && |str| > offset + 2
    ensures RefAt(str[offset..], 0)
    ensures Resolve(str) == str[..offset] + Front(str[offset..]).out + Resolve(Front(str[offset..]).rest)
  {
    IndexOfRefFirst(str);
    ResolveSkip(str, offset);
    var t := str[offset..];
    assert RefAt(t, 0);
    ResolveFront(t);
    Assoc(str[..offset], Front(t).out, Resolve(Front(t).rest));
  }

  // Regrouping of concatenations, kept apart from the proofs about
  // Resolve so that those stay small.

  lemma Regroup(done: UString, a: UString, b: UString, r: UString)
    ensures done + (a + b + r) == (done + (a + b)) + r
  {
  }

  lemma Assoc(a: UString, b: UString, c: UString)
    ensures a + b + c == a + (b + c)
  {
  }

  lemma ConsConcat(p: UString, r: UString)
    requires p != []
    ensures [p[0]] + (p[1..] + r) == p + r
    ensures (p + r)[0] == p[0] && (p + r)[1..] == p[1..] + r
  {
  }

  /** A round of resolveNcr at the first `&#`, found at `at`, whose digits
      (from `offset` to the `;` at `offset + end`) decode to `v`: the text
      before it and the code point are appended, and the text after the `;`
      is left. */
  lemma {:induction false} DecodedRound(done: UString, str: UString, at: nat, offset: nat, base: nat, end: nat, v: nat)
    requires at == IndexOfRef(str) && |str| > at + 2
    requires offset == at + (if str[at + 2] == LOWER_X then 3 else 2)
    requires base == (if str[at + 2] == LOWER_X then 16 else 10)
    requires end == IndexOfUnit(str[offset..], SEMI) && end > 0
    requires ParseNum(str[offset..offset + end], base) == Some(v)
    requires v <= LAST_VALID_CODE_POINT
    ensures done + Resolve(str) == (done + (str[..at] + Encode(v))) + Resolve(str[offset + end + 1..])
  {
    ResolveAt(str, at);
    FrontDecodedAt(str, at, offset, base, end, v);
    Regroup(done, str[..at], Encode(v), Resolve(str[offset + end + 1..]));
  }

  lemma {:induction false} FrontDecodedAt(str: UString, at: nat, offset: nat, base: nat, end: nat, v: nat)
    requires RefAt(str, at) && |str| > at + 2
    requires offset == at + (if str[at + 2] == LOWER_X then 3 else 2)
    requires base == (if str[at + 2] == LOWER_X then 16 else 10)
    requires end == IndexOfUnit(str[offset..], SEMI) && end > 0
    requires ParseNum(str[offset..offset + end], base) == Some(v)
    requires v <= LAST_VALID_CODE_POINT
    ensures RefAt(str[at..], 0)
    ensures Front(str[at..]) == Round(Encode(v), str[offset + end + 1..])
  {
    var t := str[at..];
    assert RefAt(t, 0);
    var hex := t[2] == LOWER_X;
    var rest := t[|Meta(hex)|..];
    assert rest == str[offset..];
    assert rest[..end] == str[offset..offset + end];
    assert rest[end + 1..] == str[offset + end + 1..];
  }

  /** A round of resolveNcr at the first `&#`, found at `at`, that does not
      decode (no digits before a `;`, no `;`, a non-digit, or a value
      beyond 0x10FFFF): everything up to and including `&#` (or `&#x`),
      which ends at `offset`, is appended. */
  lemma {:induction false} KeptRound(done: UString, str: UString, at: nat, offset: nat, base: nat, end: int)
    requires at == IndexOfRef(str) && |str| > at + 2
    requires offset == at + (if str[at + 2] == LOWER_X then 3 else 2)
    requires base == (if str[at + 2] == LOWER_X then 16 else 10)
    requires end == IndexOfUnit(str[offset..], SEMI)
    requires end > 0 ==> (ParseNum(str[offset..offset + end], base).None?
                       || ParseNum(str[offset..offset + end], base).value > LAST_VALID_CODE_POINT)
    ensures done + Resolve(str) == (done + str[..offset]) + Resolve(str[offset..])
  {
    ResolveAt(str, at);
    FrontKeptAt(str, at, offset, base, end);
    assert str[..at] + str[at..offset] == str[..offset];
    Regroup(done, str[..at], str[at..offset], Resolve(str[offset..]));
  }

  lemma {:induction false} FrontKeptAt(str: UString, at: nat, offset: nat, base: nat, end: int)
    requires RefAt(str, at) && |str| > at + 2
    requires offset == at + (if str[at + 2] == LOWER_X then 3 else 2)
    requires base == (if str[at + 2] == LOWER_X then 16 else 10)
    requires end == IndexOfUnit(str[offset..], SEMI)
    requires end > 0 ==> (ParseNum(str[offset..offset + end], base).None?
                       || ParseNum(str[offset..offset + end], base).value > LAST_VALID_CODE_POINT)
    ensures RefAt(str[at..], 0)
    ensures Front(str[at..]) == Round(str[at..offset], str[offset..])
  {
    var t := str[at..];
    assert RefAt(t, 0);
    var hex := t[2] == LOWER_X;
    var rest := t[|Meta(hex)|..];
    assert rest == str[offset..];
    if end > 0 {
      assert rest[..end] == str[offset..offset + end];
    }
    assert t[..|Meta(hex)|] == str[at..offset];
  }

  /** When no `&#` with a unit after it is left, the rest is copied. */
  lemma {:induction false} LastRound(str: UString, offset: int)
    requires offset == IndexOfRef(str)
    requires offset < 0 || |str| <= offset + 2
    ensures Resolve(str) == str
  {
    IndexOfRefFirst(str);
    var k := if offset < 0 then |str| else offset;
    ResolveSkip(str, k);
    assert str[..k] + str[k..] == str;
  }

  /** resolveNcr: the loop of messagemodel.cpp, which cuts the handled prefix off `str`
      on every round. */
  method ResolveNcr(input: UString) returns (result: UString)
    ensures result == Resolve(input)
  {
    var str := input;
    result := [];
    var offset := IndexOfRef(str);
    while offset >= 0
      invariant offset == IndexOfRef(str)
      invariant result + Resolve(str) == Resolve(input)
      decreases |str|
    {
      var metaLen := 2;
      if |str| <= offset + metaLen {
        break;
      }
      ghost var at := offset;
      var base := 10;
      if str[offset + metaLen] == LOWER_X {
        metaLen := metaLen + 1;
        base := 16;
      }
      offset := offset + metaLen;
      var end := IndexOfUnit(str[offset..], SEMI);
      if end > 0 {
        var c := ParseNum(str[offset..offset + end], base);
        if c.Some? && c.value <= LAST_VALID_CODE_POINT {
          DecodedRound(result, str, at, offset, base, end, c.value);
          result := result + (str[..offset - metaLen] + Encode(c.value));
          str := str[offset + end + 1..];
          offset := IndexOfRef(str);
          continue;
        }
      }
      KeptRound(result, str, at, offset, base, end);
      result := result + str[..offset];
      str := str[offset..];
      offset := IndexOfRef(str);
    }
    LastRound(str, offset);
    result := result + str;
  }

  /** What showNcr writes for one unit: non-printable units above 0x20 as
      `&#x<lower-case hex>;`, every other unit as itself. */
  function ShowUnit(c: CodeUnit, isPrint: CodeUnit -> bool): (r: UString)
  {
    if !isPrint(c) && c > 0x20 then Reference(true, Digits(c as nat, 16)) else [c]
  }

  /** What showNcr returns: each unit replaced by ShowUnit. */
  function Show(s: UString, isPrint: CodeUnit -> bool): (r: UString)
    ensures |r| >= |s|
  {
    if s == [] then [] else ShowUnit(s[0], isPrint) + Show(s[1..], isPrint)
  }

  /** showNcr, with QChar::isPrint as the parameter `isPrint`. */
  method ShowNcr(str: UString, isPrint: CodeUnit -> bool) returns (result: UString)
    ensures result == Show(str, isPrint)
  {
    result := [];
    for i := 0 to |str|
      invariant result + Show(str[i..], isPrint) == Show(str, isPrint)
    {
      var unit := ShowUnit(str[i], isPrint);
      assert str[i..][0] == str[i] && str[i..][1..] == str[i + 1..];
      assert Show(str[i..], isPrint) == unit + Show(str[i + 1..], isPrint);
      result := result + unit;
    }
    assert str[|str|..] == [];
  }

  /** adjustNcrVisibility: showNcr in NCR mode, resolveNcr otherwise. */
  method AdjustNcrVisibility(str: UString, ncrMode: bool, isPrint: CodeUnit -> bool) returns (result: UString)
    ensures ncrMode ==> result == Show(str, isPrint)
    ensures !ncrMode ==> result == Resolve(str)
  {
    if ncrMode {
      result := ShowNcr(str, isPrint);
    } else {
      result := ResolveNcr(str);
    }
  }

  // ---------------------------------------------------------------------
  // Properties

  /** A reference with a unit after it is handled by Front. */
  lemma {:induction false} ResolveFront(s: UString)
    requires |s| > 2 && RefAt(s, 0)
    ensures Resolve(s) == Front(s).out + Resolve(Front(s).rest)
  {
  }

  /** A unit that does not start a reference is copied. */
  lemma {:induction false} ResolveCopies(s: UString)
    requires |s| > 2 && !RefAt(s, 0)
    ensures Resolve(s) == [s[0]] + Resolve(s[1..])
  {
  }

  /** Plain text in front does not change how the rest is resolved. */
  lemma {:induction false} ResolvePrefix(p: UString, u: UString)
    requires Plain(p)
    ensures Resolve(p + u) == p + Resolve(u)
    decreases |p|
  {
    if p == [] {
      assert p + u == u;
    } else if |p + u| <= 2 {
      assert |u| <= 1;
    } else {
      var s := p + u;
      var q := p[1..];
      assert Plain(q) by {
        forall i | 0 <= i < |q| ensures !RefAt(q, i) {
          assert !RefAt(p, i + 1);
        }
      }
      assert !RefAt(s, 0) by {
        if |p| >= 2 { assert !RefAt(p, 0); }
      }
      ResolveCopies(s);
      ConsConcat(p, u);
      ResolvePrefix(q, u);
      ConsConcat(p, Resolve(u));
    }
  }

  /** A text without `&#` comes back unchanged. */
  lemma {:induction false} NoReferenceUnchanged(s: UString)
    requires forall i | 0 <= i < |s| :: !RefAt(s, i)
    ensures Resolve(s) == s
  {
    ResolveSkip(s, |s|);
    assert s[..|s|] == s;
  }

  /** A text without `;` comes back unchanged: no reference in it can be
      complete. */
  lemma {:induction false} NoSemicolonUnchanged(s: UString)
    requires SEMI !in s
    ensures Resolve(s) == s
    decreases |s|
  {
    if |s| > 2 {
      if RefAt(s, 0) {
        var hex := s[2] == LOWER_X;
        var rest := s[|Meta(hex)|..];
        assert SEMI !in rest;
        assert IndexOfUnit(rest, SEMI) < 0;
        NoSemicolonUnchanged(rest);
        assert s[..|Meta(hex)|] + rest == s;
      } else {
        NoSemicolonUnchanged(s[1..]);
        assert [s[0]] + s[1..] == s;
      }
    }
  }

  /** A complete reference `&#<digits>;` or `&#x<digits>;`. */
  function Reference(hex: bool, digits: UString): (r: UString)
    ensures |r| == |Meta(hex)| + |digits| + 1
  {
    Meta(hex) + digits + [SEMI]
  }

  /** The round at a complete reference at the start of the text. */
  lemma {:induction false} ReferenceFront(hex: bool, digits: UString, s: UString)
    requires ParseNum(digits, BaseOf(hex)).Some?
    requires ParseNum(digits, BaseOf(hex)).value <= LAST_VALID_CODE_POINT
    ensures RefAt(Reference(hex, digits) + s, 0) && |Reference(hex, digits) + s| > 2
    ensures Front(Reference(hex, digits) + s) == Round(Encode(ParseNum(digits, BaseOf(hex)).value), s)
  {
    var base := BaseOf(hex);
    var u := Reference(hex, digits) + s;
    assert u == Meta(hex) + digits + [SEMI] + s;
    assert RefAt(u, 0);
    ParseNumAllDigits(digits, base);
    assert u[2] == if hex then LOWER_X else digits[0];
    var rest := u[|Meta(hex)|..];
    assert rest == digits + [SEMI] + s;
    forall i | 0 <= i < |digits| ensures rest[i] != SEMI {
      assert rest[i] == digits[i];
    }
    IndexOfUnitIs(rest, SEMI, |digits|);
    assert rest[..|digits|] == digits;
    assert rest[|digits| + 1..] == s;
  }

  /** A complete reference after plain text is replaced by its code point,
      as a surrogate pair above 0xFFFF, and resolution goes on after the
      `;`. */
  lemma {:induction false} ResolveReference(p: UString, hex: bool, digits: UString, s: UString)
    requires Plain(p)
    requires ParseNum(digits, BaseOf(hex)).Some?
    requires ParseNum(digits, BaseOf(hex)).value <= LAST_VALID_CODE_POINT
    ensures Resolve(p + Reference(hex, digits) + s)
         == p + Encode(ParseNum(digits, BaseOf(hex)).value) + Resolve(s)
  {
    var u := Reference(hex, digits) + s;
    var enc := Encode(ParseNum(digits, BaseOf(hex)).value);
    ReferenceFront(hex, digits, s);
    ResolveFront(u);
    ResolvePrefix(p, u);
    Assoc(p, Reference(hex, digits), s);
    Assoc(p, enc, Resolve(s));
  }

  /** A `&#` (or `&#x`) whose digits up to the next `;` are missing, not all
      digits or beyond 0x10FFFF is copied as it stands, and resolution goes
      on right after it. */
  lemma {:induction false} ResolveKeepsUndecodable(p: UString, hex: bool, s: UString)
    requires Plain(p)
    requires hex || (s != [] && s[0] != LOWER_X)
    requires !Decodes(s, BaseOf(hex))
    ensures Resolve(p + Meta(hex) + s) == p + Meta(hex) + Resolve(s)
  {
    var u := Meta(hex) + s;
    KeptFront(hex, s);
    ResolveFront(u);
    ResolvePrefix(p, u);
    Assoc(p, Meta(hex), s);
    Assoc(p, Meta(hex), Resolve(s));
  }

  /** The round at an undecodable `&#` (or `&#x`) at the start of the
      text. */
  lemma {:induction false} KeptFront(hex: bool, s: UString)
    requires hex || (s != [] && s[0] != LOWER_X)
    requires !Decodes(s, BaseOf(hex))
    ensures RefAt(Meta(hex) + s, 0) && |Meta(hex) + s| > 2
    ensures Front(Meta(hex) + s) == Round(Meta(hex), s)
  {
    var u := Meta(hex) + s;
    assert RefAt(u, 0);
    assert u[2] == if hex then LOWER_X else s[0];
    assert u[|Meta(hex)|..] == s;
    assert u[..|Meta(hex)|] == Meta(hex);
  }

  /** Resolving what showNcr wrote gives the original text back, for text
      without `&`: showNcr escapes only non-printable units and leaves `&`
      as it is. */
  lemma {:induction false} ShowThenResolve(s: UString, isPrint: CodeUnit -> bool)
    requires AMP !in s
    ensures Resolve(Show(s, isPrint)) == s
    decreases |s|
  {
    if s != [] {
      var t := Show(s[1..], isPrint);
      assert Show(s, isPrint) == ShowUnit(s[0], isPrint) + t;
      ShowThenResolve(s[1..], isPrint);
      ResolveShowUnit(s[0], isPrint, t);
      assert [s[0]] + s[1..] == s;
    }
  }

  /** What showNcr writes for a unit other than `&` resolves back to it,
      whatever follows. */
  lemma {:induction false} ResolveShowUnit(c: CodeUnit, isPrint: CodeUnit -> bool, t: UString)
    requires c != AMP
    ensures Resolve(ShowUnit(c, isPrint) + t) == [c] + Resolve(t)
  {
    if !isPrint(c) && c > 0x20 {
      ResolveEscaped(c, t);
    } else {
      ResolvePrefix([c], t);
    }
  }

  /** `&#x<hex digits of c>;` resolves back to `c`. */
  lemma {:induction false} ResolveEscaped(c: CodeUnit, t: UString)
    ensures Resolve(Reference(true, Digits(c as nat, 16)) + t) == [c] + Resolve(t)
  {
    var digits := Digits(c as nat, 16);
    ParseDigits(c as nat, 16);
    var u := Reference(true, digits) + t;
    ReferenceFront(true, digits, t);
    ResolveFront(u);
  }
}
