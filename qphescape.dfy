/** qphProtect: the escaping a phrase book applies to the text it writes
    inside XML elements, and the decoding of those escapes by an idealised
    XML reader: it decodes the predefined entities of section 4.6 and the
    decimal character references of section 4.1 of the XML 1.0
    recommendation, but also references to control characters, which the
    Legal Character constraint of section 4.1 forbids, and it keeps CR,
    which the end-of-line handling of section 2.11 turns into LF. */
module QphEscape {
  import opened Wrappers
  import opened Text
  import Ncr

  const TAB: CodeUnit := 0x09
  const LF: CodeUnit := 0x0A
  const CR: CodeUnit := 0x0D
  const QUOTE: CodeUnit := 0x22
  const APOS: CodeUnit := 0x27
  const LT: CodeUnit := 0x3C
  const GT: CodeUnit := 0x3E

  /** The entity references for the five special units. */
  const QUOT_REF: UString := [0x26, 0x71, 0x75, 0x6F, 0x74, 0x3B]   // &quot;
  const AMP_REF: UString := [0x26, 0x61, 0x6D, 0x70, 0x3B]          // &amp;
  const GT_REF: UString := [0x26, 0x67, 0x74, 0x3B]                 // &gt;
  const LT_REF: UString := [0x26, 0x6C, 0x74, 0x3B]                 // &lt;
  const APOS_REF: UString := [0x26, 0x61, 0x70, 0x6F, 0x73, 0x3B]   // &apos;

  /** The five units written as named entities. */
  predicate Special(c: CodeUnit) {
    c == QUOTE || c == AMP || c == GT || c == LT || c == APOS
  }

  /** Units below 0x20 other than CR, LF and tab, written as references. */
  predicate Control(c: CodeUnit) {
    c < 0x20 && c != CR && c != LF && c != TAB
  }

  /** The escape of one unit: a named entity, a decimal reference, or the
      unit itself (surrogate halves included). */
  function ProtectUnit(c: CodeUnit): (r: UString)
    ensures r != []
  {
    if c == QUOTE then QUOT_REF
    else if c == AMP then AMP_REF
    else if c == GT then GT_REF
    else if c == LT then LT_REF
    else if c == APOS then APOS_REF
    else if Control(c) then [AMP, HASH] + Digits(c as nat, 10) + [SEMI]
    else [c]
  }

  /** The images of the elements of `s` under `f`, one after the other. */
  function FlatMap<T, U>(s: seq<T>, f: T -> seq<U>): seq<U> {
    if s == [] then [] else FlatMap(s[..|s| - 1], f) + f(s[|s| - 1])
  }

  lemma {:induction false} FlatMapConcat<T, U>(a: seq<T>, b: seq<T>, f: T -> seq<U>)
    ensures FlatMap(a + b, f) == FlatMap(a, f) + FlatMap(b, f)
    decreases |b|
  {
    if b == [] {
      assert a + b == a;
    } else {
      var b' := b[..|b| - 1];
      assert (a + b)[..|a + b| - 1] == a + b';
      FlatMapConcat(a, b', f);
    }
  }

  lemma FlatMapFront<T, U>(s: seq<T>, f: T -> seq<U>)
    requires s != []
    ensures FlatMap(s, f) == f(s[0]) + FlatMap(s[1..], f)
  {
    FlatMapConcat([s[0]], s[1..], f);
    assert [s[0]] + s[1..] == s;
    assert FlatMap([s[0]], f) == FlatMap([], f) + f(s[0]);
  }

  lemma FlatMapSnoc<T, U>(s: seq<T>, c: T, f: T -> seq<U>)
    ensures FlatMap(s + [c], f) == FlatMap(s, f) + f(c)
  {
    assert (s + [c])[..|s|] == s;
  }

  /** Mapping every element to a non-empty sequence never shortens. */
  lemma {:induction false} FlatMapLonger<T, U>(s: seq<T>, f: T -> seq<U>)
    requires forall x :: f.requires(x) && |f(x)| >= 1
    ensures |FlatMap(s, f)| >= |s|
    decreases |s|
  {
    if s != [] {
      FlatMapLonger(s[..|s| - 1], f);
    }
  }

  /** The escaped text: each unit's escape, in order; every unit yields at
      least one unit, and only an empty text escapes to nothing. */
  function Protect(s: UString): (r: UString)
    ensures |r| >= |s|
    ensures r == [] <==> s == []
  {
    FlatMapLonger(s, ProtectUnit);
    FlatMap(s, ProtectUnit)
  }

  /** Escaping one more unit appends its escape. */
  lemma ProtectSnoc(s: UString, c: CodeUnit)
    ensures Protect(s + [c]) == Protect(s) + ProtectUnit(c)
  {
    FlatMapSnoc(s, c, ProtectUnit);
  }

  /** qphProtect: builds the escaped text unit by unit. */
  method QphProtect(str: UString) returns (result: UString)
    ensures result == Protect(str)
  {
    result := [];
    var i := 0;
    while i != |str|
      invariant 0 <= i <= |str|
      invariant result == Protect(str[..i])
    {
      var c := str[i];
      ProtectSnoc(str[..i], c);
      assert str[..i + 1] == str[..i] + [c];
      if c == QUOTE {
        result := result + QUOT_REF;
      } else if c == AMP {
        result := result + AMP_REF;
      } else if c == GT {
        result := result + GT_REF;
      } else if c == LT {
        result := result + LT_REF;
      } else if c == APOS {
        result := result + APOS_REF;
      } else if c < 0x20 && c != CR && c != LF && c != TAB {
        result := result + ([AMP, HASH] + Digits(c as nat, 10) + [SEMI]);
      } else {
        result := result + [c];
      }
      i := i + 1;
    }
    assert str[..i] == str;
  }

  /** Escaping distributes over concatenation. */
  lemma ProtectConcat(a: UString, b: UString)
    ensures Protect(a + b) == Protect(a) + Protect(b)
  {
    FlatMapConcat(a, b, ProtectUnit);
  }

  /** The escaped text holds no quote, apostrophe or angle bracket, and no
      unit below 0x20 other than CR, LF and tab. */
  lemma {:induction false} ProtectNoMarkup(s: UString)
    ensures forall i | 0 <= i < |Protect(s)| :: !Special(Protect(s)[i]) || Protect(s)[i] == AMP
    ensures forall i | 0 <= i < |Protect(s)| :: !Control(Protect(s)[i])
    decreases |s|
  {
    if s != [] {
      var init, c := s[..|s| - 1], s[|s| - 1];
      ProtectNoMarkup(init);
      var u := ProtectUnit(c);
      ProtectSnoc(init, c);
      assert init + [c] == s;
      if Control(c) {
        var ds := Digits(c as nat, 10);
        forall i | 0 <= i < |ds| ensures ds[i] as int >= 0x30 {
          assert DigitValue(ds[i], 10).Some?;
        }
      }
      forall i | 0 <= i < |u| ensures (!Special(u[i]) || u[i] == AMP) && !Control(u[i]) {
        if Control(c) {
          if 2 <= i < |u| - 1 {
            assert u[i] == Digits(c as nat, 10)[i - 2];
          }
        }
      }
      assert Protect(s) == Protect(init) + u;
    }
  }

  /** Text without special or control units is written as it is. */
  lemma {:induction false} ProtectPlain(s: UString)
    requires forall i | 0 <= i < |s| :: !Special(s[i]) && !Control(s[i])
    ensures Protect(s) == s
    decreases |s|
  {
    if s != [] {
      ProtectPlain(s[..|s| - 1]);
      ProtectSnoc(s[..|s| - 1], s[|s| - 1]);
      assert s[..|s| - 1] + [s[|s| - 1]] == s;
    }
  }

  // ---------------------------------------------------------------------
  // Decoding

  /** `s` starts with `p`. */
  predicate StartsWith(s: UString, p: UString) {
    |p| <= |s| && s[..|p|] == p
  }

  /** The escape at the front of `s`: the unit it stands for and its
      length; None when `s` does not start with one. */
  function EntityAt(s: UString): (r: Option<(CodeUnit, nat)>)
    ensures r.Some? ==> 1 <= r.value.1 <= |s| && s[0] == AMP
  {
    if StartsWith(s, QUOT_REF) then Some((QUOTE, 6))
    else if StartsWith(s, AMP_REF) then Some((AMP, 5))
    else if StartsWith(s, GT_REF) then Some((GT, 4))
    else if StartsWith(s, LT_REF) then Some((LT, 4))
    else if StartsWith(s, APOS_REF) then Some((APOS, 6))
    else if |s| >= 2 && s[0] == AMP && s[1] == HASH then
      var j := Ncr.IndexOfUnit(s, SEMI);
      if j < 2 then None
      else
        match ParseNum(s[2..j], 10)
        case Some(n) => if n < 0x1_0000 then Some((n as CodeUnit, j + 1)) else None
        case None => None
    else None
  }

  /** The character data an XML reader reports for escaped text: each
      entity or decimal reference replaced by its unit. */
  function Unprotect(s: UString): (r: UString)
    decreases |s|
  {
    if s == [] then []
    else
      match EntityAt(s)
      case Some(e) => [e.0] + Unprotect(s[e.1..])
      case None => [s[0]] + Unprotect(s[1..])
  }

  /** A named entity in front of more text decodes to its unit. */
  lemma UnprotectNamed(c: CodeUnit, rest: UString)
    requires Special(c)
    ensures Unprotect(ProtectUnit(c) + rest) == [c] + Unprotect(rest)
  {
    var u := ProtectUnit(c);
    var s := u + rest;
    assert s[..|u|] == u;
    assert s[|u|..] == rest;
    assert s[1] == u[1];
    if c == QUOTE {
      assert EntityAt(s) == Some((c, 6));
    } else if c == AMP {
      assert s[1] == 0x61 && s[2] == 0x6D;
      assert EntityAt(s) == Some((c, 5));
    } else if c == GT {
      assert s[1] == 0x67;
      assert EntityAt(s) == Some((c, 4));
    } else if c == LT {
      assert s[1] == 0x6C;
      assert EntityAt(s) == Some((c, 4));
    } else {
      assert s[1] == 0x61 && s[2] == 0x70;
      assert EntityAt(s) == Some((c, 6));
    }
  }

  /** A decimal reference in front of more text decodes to its unit. */
  lemma UnprotectReference(c: CodeUnit, rest: UString)
    requires Control(c)
    ensures Unprotect(ProtectUnit(c) + rest) == [c] + Unprotect(rest)
  {
    var d := Digits(c as nat, 10);
    var s := ProtectUnit(c) + rest;
    assert s == [AMP, HASH] + d + [SEMI] + rest;
    forall i | 0 <= i < 2 + |d| ensures s[i] != SEMI {
      if i >= 2 { assert s[i] == d[i - 2]; assert DigitValue(d[i - 2], 10).Some?; }
    }
    Ncr.IndexOfUnitIs(s, SEMI, 2 + |d|);
    assert s[2..2 + |d|] == d;
    ParseDigits(c as nat, 10);
    assert !StartsWith(s, QUOT_REF) && !StartsWith(s, AMP_REF) && !StartsWith(s, GT_REF);
    assert !StartsWith(s, LT_REF) && !StartsWith(s, APOS_REF);
    assert EntityAt(s) == Some((c, 3 + |d|));
    assert s[3 + |d|..] == rest;
  }

  /** Decoding an escaped unit in front of more text gives the unit back. */
  lemma UnprotectUnit(c: CodeUnit, rest: UString)
    ensures Unprotect(ProtectUnit(c) + rest) == [c] + Unprotect(rest)
  {
    if Special(c) {
      UnprotectNamed(c, rest);
    } else if Control(c) {
      UnprotectReference(c, rest);
    } else {
      var s := [c] + rest;
      assert s[1..] == rest;
      assert EntityAt(s) == None;
    }
  }

  /** Escaping front to back: the first unit's escape, then the rest. */
  lemma ProtectFront(s: UString)
    requires s != []
    ensures Protect(s) == ProtectUnit(s[0]) + Protect(s[1..])
  {
    FlatMapFront(s, ProtectUnit);
  }

  /** An XML reader gets back exactly the text that was escaped. */
  lemma {:induction false} UnprotectProtect(s: UString)
    ensures Unprotect(Protect(s)) == s
    decreases |s|
  {
    if s != [] {
      ProtectFront(s);
      UnprotectUnit(s[0], Protect(s[1..]));
      UnprotectProtect(s[1..]);
    }
  }
}
