/** Version comparison in the page: numeric tokens by value, anything else by locale order. */
module Versions {
  import opened Common
  import opened Text

  datatype Token = Num(value: nat) | Txt(text: string)

  type Locale = (string, string) -> int

  predicate IsDigits(s: string) {
    s != "" && forall i | 0 <= i < |s| :: '0' <= s[i] <= '9'
  }

  function Value(s: string): nat
    requires forall i | 0 <= i < |s| :: '0' <= s[i] <= '9'
  {
    if s == "" then 0
    else 10 * Value(s[..|s| - 1]) + (s[|s| - 1] as int - '0' as int)
  }

  /** `String(n)`: the digits of a number. */
  function Decimal(n: nat): (s: string)
    ensures IsDigits(s) && Value(s) == n
  {
    var digit := ['0' + (n % 10) as char];
    if n < 10 then digit else Decimal(n / 10) + digit
  }

  /** `-` and `+` separate tokens just as `.` does. */
  function Dotted(s: string): string {
    seq(|s|, i requires 0 <= i < |s| => if s[i] == '-' || s[i] == '+' then '.' else s[i])
  }

  function TokenOf(piece: string): Token {
    if IsDigits(piece) then Num(Value(piece)) else Txt(piece)
  }

  function TokensOf(pieces: seq<string>): (ts: seq<Token>)
    ensures |ts| == |pieces| && forall i | 0 <= i < |ts| :: ts[i] == TokenOf(pieces[i])
  {
    seq(|pieces|, i requires 0 <= i < |pieces| => TokenOf(pieces[i]))
  }

  function Tokens(version: string): seq<Token> { TokensOf(Split(Dotted(version), '.')) }

  /** The token at a position; a version that has ended counts as zeros. */
  function At(ts: seq<Token>, i: nat): Token {
    if i < |ts| then ts[i] else Num(0)
  }

  function Shown(t: Token): string {
    match t
    case Num(n) => Decimal(n)
    case Txt(s) => s
  }

  function CmpToken(x: Token, y: Token, locale: Locale): int {
    if x == y then 0
    else if x.Num? && y.Num? then x.value - y.value
    else locale(Shown(x), Shown(y))
  }

  function CmpFrom(xs: seq<Token>, ys: seq<Token>, i: nat, locale: Locale): int
    decreases Max(|xs|, |ys|) - i
  {
    if i >= Max(|xs|, |ys|) then 0
    else if At(xs, i) == At(ys, i) then CmpFrom(xs, ys, i + 1, locale)
    else CmpToken(At(xs, i), At(ys, i), locale)
  }

  function CmpTokens(xs: seq<Token>, ys: seq<Token>, locale: Locale): int { CmpFrom(xs, ys, 0, locale) }

  function CmpVersion(a: string, b: string, locale: Locale): int {
    CmpTokens(Tokens(a), Tokens(b), locale)
  }

  // ---------- tokens ----------

  /** Locale order as a total preorder on strings: different strings may collate as equal. */
  ghost predicate LocaleOrder(locale: Locale) {
    && (forall a, b :: locale(a, b) < 0 <==> locale(b, a) > 0)
    && (forall a, b, c :: locale(a, b) <= 0 && locale(b, c) <= 0 ==> locale(a, c) <= 0)
  }

  ghost predicate AllNumeric(ts: seq<Token>) {
    forall i | 0 <= i < |ts| :: ts[i].Num?
  }

  /** Whatever the version, what is kept as text never reads as a number. */
  lemma TokensAreLexed(version: string)
    ensures forall i | 0 <= i < |Tokens(version)| && Tokens(version)[i].Txt? :: !IsDigits(Tokens(version)[i].text)
  {
  }

  /** Versions whose comparison means something: any under a proper locale, or numbers under any at all. */
  ghost predicate Fair(ts: seq<Token>, locale: Locale) {
    LocaleOrder(locale) || AllNumeric(ts)
  }

  ghost predicate FairToken(t: Token, locale: Locale) {
    LocaleOrder(locale) || t.Num?
  }

  lemma FairAt(ts: seq<Token>, i: nat, locale: Locale)
    requires Fair(ts, locale)
    ensures FairToken(At(ts, i), locale)
  {
  }

  lemma TokenOrder(x: Token, y: Token, locale: Locale)
    requires FairToken(x, locale) && FairToken(y, locale)
    ensures CmpToken(x, y, locale) < 0 <==> CmpToken(y, x, locale) > 0
    ensures x.Num? && y.Num? ==> (CmpToken(x, y, locale) == 0 <==> x == y)
  {
  }

  /** A text token that lies, in locale order, between two numbers taken the wrong way round. */
  predicate Crossed(low: Token, high: Token, text: Token, locale: Locale) {
    && low.Num? && high.Num? && text.Txt? && low.value < high.value
    && locale(Shown(high), Shown(text)) <= 0 && locale(Shown(text), Shown(low)) <= 0
  }

  lemma TokenTransitive(x: Token, y: Token, z: Token, locale: Locale)
    requires FairToken(x, locale) && FairToken(y, locale) && FairToken(z, locale)
    requires x != y && y != z && x != z
    requires CmpToken(x, y, locale) <= 0 && CmpToken(y, z, locale) <= 0
    requires !Crossed(z, x, y, locale) && !Crossed(x, y, z, locale) && !Crossed(y, z, x, locale)
    ensures CmpToken(x, z, locale) <= 0
  {
    TokenOrder(x, y, locale);
    TokenOrder(y, z, locale);
    TokenOrder(x, z, locale);
  }

  // ---------- versions ----------

  /** The two versions agree, padding included, before position `k`. */
  ghost predicate AgreeBefore(xs: seq<Token>, ys: seq<Token>, k: nat) {
    forall i: nat | i < k :: At(xs, i) == At(ys, i)
  }

  ghost predicate Agree(xs: seq<Token>, ys: seq<Token>) {
    forall i: nat :: At(xs, i) == At(ys, i)
  }

  /** `k` is the first position at which the two differ. */
  ghost predicate Parts(xs: seq<Token>, ys: seq<Token>, k: nat) {
    AgreeBefore(xs, ys, k) && At(xs, k) != At(ys, k)
  }

  lemma {:induction false} CmpSkipsAgreement(xs: seq<Token>, ys: seq<Token>, i: nat, k: nat, locale: Locale)
    requires i <= k && Parts(xs, ys, k)
    ensures CmpFrom(xs, ys, i, locale) == CmpToken(At(xs, k), At(ys, k), locale)
    decreases k - i
  {
    assert k < Max(|xs|, |ys|);
    if i < k {
      assert At(xs, i) == At(ys, i);
      CmpSkipsAgreement(xs, ys, i + 1, k, locale);
    }
  }

  lemma {:induction false} AgreeOrPart(xs: seq<Token>, ys: seq<Token>, i: nat)
    requires AgreeBefore(xs, ys, i)
    ensures Agree(xs, ys) || exists k :: Parts(xs, ys, k)
    decreases Max(|xs|, |ys|) - i
  {
    if i < Max(|xs|, |ys|) {
      if At(xs, i) == At(ys, i) {
        AgreeOrPart(xs, ys, i + 1);
      } else {
        assert Parts(xs, ys, i);
      }
    } else {
      assert forall j: nat | j >= i :: At(xs, j) == Num(0) == At(ys, j);
    }
  }

  lemma {:induction false} CmpAgree(xs: seq<Token>, ys: seq<Token>, i: nat, locale: Locale)
    requires Agree(xs, ys)
    ensures CmpFrom(xs, ys, i, locale) == 0
    decreases Max(|xs|, |ys|) - i
  {
    if i < Max(|xs|, |ys|) {
      assert At(xs, i) == At(ys, i);
      CmpAgree(xs, ys, i + 1, locale);
    }
  }

  /** The first difference is between two different tokens that collate as equal. */
  ghost predicate TiedAt(xs: seq<Token>, ys: seq<Token>, k: nat, locale: Locale) {
    Parts(xs, ys, k) && CmpToken(At(xs, k), At(ys, k), locale) == 0
  }

  /** Two versions compare equal exactly when their tokens agree after zero padding or first differ in
      tokens that collate as equal; swapping them swaps the verdict. */
  lemma CmpEqualIff(xs: seq<Token>, ys: seq<Token>, locale: Locale)
    requires Fair(xs, locale) && Fair(ys, locale)
    ensures CmpTokens(xs, ys, locale) == 0 <==> Agree(xs, ys) || exists k :: TiedAt(xs, ys, k, locale)
    ensures CmpTokens(xs, ys, locale) < 0 <==> CmpTokens(ys, xs, locale) > 0
  {
    AgreeOrPart(xs, ys, 0);
    if Agree(xs, ys) {
      CmpAgree(xs, ys, 0, locale);
      CmpAgree(ys, xs, 0, locale);
    } else {
      var k :| Parts(xs, ys, k);
      assert Parts(ys, xs, k);
      CmpAtPart(xs, ys, k, locale);
      CmpAtPart(ys, xs, k, locale);
      FairAt(xs, k, locale);
      FairAt(ys, k, locale);
      TokenOrder(At(xs, k), At(ys, k), locale);
      if CmpTokens(xs, ys, locale) == 0 {
        assert TiedAt(xs, ys, k, locale);
      }
      if j :| TiedAt(xs, ys, j, locale) {
        CmpAtPart(xs, ys, j, locale);
      }
    }
  }

  /** Versions made of numbers compare equal exactly when their tokens agree after zero padding. */
  lemma NumericEqualIffAgree(xs: seq<Token>, ys: seq<Token>, locale: Locale)
    requires AllNumeric(xs) && AllNumeric(ys)
    ensures CmpTokens(xs, ys, locale) == 0 <==> Agree(xs, ys)
  {
    CmpEqualIff(xs, ys, locale);
    if k :| TiedAt(xs, ys, k, locale) {
      FairAt(xs, k, locale);
      assert At(xs, k).Num? && At(ys, k).Num?;
      TokenOrder(At(xs, k), At(ys, k), locale);
    }
  }

  /** Where different strings never collate as equal, two versions compare equal exactly when their
      tokens agree after zero padding. */
  lemma StrictEqualIffAgree(a: string, b: string, locale: Locale)
    requires LocaleOrder(locale) && forall x, y :: locale(x, y) == 0 <==> x == y
    ensures CmpVersion(a, b, locale) == 0 <==> Agree(Tokens(a), Tokens(b))
  {
    var xs, ys := Tokens(a), Tokens(b);
    CmpEqualIff(xs, ys, locale);
    if k :| TiedAt(xs, ys, k, locale) {
      TokensAreLexed(a);
      TokensAreLexed(b);
      assert Shown(At(xs, k)) == Shown(At(ys, k));
      ShownDiffers(At(xs, k), At(ys, k));
    }
  }

  lemma ShownDiffers(x: Token, y: Token)
    requires x != y && (x.Txt? ==> !IsDigits(x.text)) && (y.Txt? ==> !IsDigits(y.text))
    ensures Shown(x) != Shown(y)
  {
  }

  /** Three versions share everything before `k`, where a text token crosses two numbers. */
  ghost predicate CrossedAt(low: seq<Token>, high: seq<Token>, text: seq<Token>, k: nat, locale: Locale) {
    && AgreeBefore(low, high, k) && AgreeBefore(low, text, k)
    && Crossed(At(low, k), At(high, k), At(text, k), locale)
  }

  ghost predicate CrossedIn(vs: set<seq<Token>>, locale: Locale) {
    exists low, high, text, k :: low in vs && high in vs && text in vs && CrossedAt(low, high, text, k, locale)
  }

  /** Two versions share one more token than the third, whose token there collates as theirs does; the
      comparison with the third stops at that tie, but theirs goes on and tells them apart. */
  ghost predicate MaskedAt(xs: seq<Token>, zs: seq<Token>, tied: seq<Token>, k: nat, locale: Locale) {
    TiedAt(xs, tied, k, locale) && AgreeBefore(xs, zs, k + 1) && exists j :: AboveAt(xs, zs, j, locale)
  }

  /** The first difference is in favour of the first. */
  ghost predicate AboveAt(xs: seq<Token>, zs: seq<Token>, j: nat, locale: Locale) {
    Parts(xs, zs, j) && CmpToken(At(xs, j), At(zs, j), locale) > 0
  }

  lemma AboveIff(xs: seq<Token>, zs: seq<Token>, locale: Locale)
    ensures CmpTokens(xs, zs, locale) > 0 <==> exists j :: AboveAt(xs, zs, j, locale)
  {
    if Agree(xs, zs) {
      CmpAgree(xs, zs, 0, locale);
    } else {
      var k := FirstPart(xs, zs);
      CmpAtPart(xs, zs, k, locale);
      if CmpTokens(xs, zs, locale) > 0 {
        assert AboveAt(xs, zs, k, locale);
      }
      if j :| AboveAt(xs, zs, j, locale) {
        CmpAtPart(xs, zs, j, locale);
      }
    }
  }

  ghost predicate MaskedIn(vs: set<seq<Token>>, locale: Locale) {
    exists xs, zs, tied, k :: xs in vs && zs in vs && tied in vs && MaskedAt(xs, zs, tied, k, locale)
  }

  /** `CmpTokens` never runs round in a circle on these versions. */
  ghost predicate CmpTransitive(vs: set<seq<Token>>, locale: Locale) {
    forall x, y, z | x in vs && y in vs && z in vs
      && CmpTokens(x, y, locale) <= 0 && CmpTokens(y, z, locale) <= 0 :: CmpTokens(x, z, locale) <= 0
  }

  lemma CmpAtPart(xs: seq<Token>, ys: seq<Token>, k: nat, locale: Locale)
    requires Parts(xs, ys, k)
    ensures CmpTokens(xs, ys, locale) == CmpToken(At(xs, k), At(ys, k), locale)
  {
    CmpSkipsAgreement(xs, ys, 0, k, locale);
  }

  /** The first difference decides: two numbers by value, anything else by how it is written. */
  lemma FirstDifferenceDecides(xs: seq<Token>, ys: seq<Token>, k: nat, locale: Locale)
    requires At(xs, k) != At(ys, k) && forall i: nat | i < k :: At(xs, i) == At(ys, i)
    ensures CmpTokens(xs, ys, locale)
            == match (At(xs, k), At(ys, k))
               case (Num(m), Num(n)) => m - n
               case (Num(m), Txt(t)) => locale(Decimal(m), t)
               case (Txt(s), Num(n)) => locale(s, Decimal(n))
               case (Txt(s), Txt(t)) => locale(s, t)
  {
    CmpAtPart(xs, ys, k, locale);
  }

  lemma AgreeBeforeTrans(xs: seq<Token>, ys: seq<Token>, zs: seq<Token>, k: nat)
    requires AgreeBefore(xs, ys, k) && AgreeBefore(ys, zs, k)
    ensures AgreeBefore(xs, zs, k) && AgreeBefore(ys, xs, k) && AgreeBefore(zs, ys, k)
  {
    forall i: nat | i < k ensures At(xs, i) == At(zs, i) {
      assert At(xs, i) == At(ys, i) && At(ys, i) == At(zs, i);
    }
  }

  /** Of two versions that do not agree, the first difference. */
  lemma FirstPart(xs: seq<Token>, ys: seq<Token>) returns (k: nat)
    requires !Agree(xs, ys)
    ensures Parts(xs, ys, k) && Parts(ys, xs, k)
  {
    AgreeOrPart(xs, ys, 0);
    k :| Parts(xs, ys, k);
  }

  lemma NotCrossedAt(xs: seq<Token>, ys: seq<Token>, zs: seq<Token>, k: nat, vs: set<seq<Token>>, locale: Locale)
    requires xs in vs && ys in vs && zs in vs && !CrossedIn(vs, locale)
    requires AgreeBefore(xs, ys, k) && AgreeBefore(ys, zs, k)
    ensures !Crossed(At(xs, k), At(ys, k), At(zs, k), locale)
    ensures !Crossed(At(ys, k), At(zs, k), At(xs, k), locale)
    ensures !Crossed(At(zs, k), At(xs, k), At(ys, k), locale)
  {
    AgreeBeforeTrans(xs, ys, zs, k);
    AgreeBeforeTrans(zs, ys, xs, k);
    assert !CrossedAt(xs, ys, zs, k, locale);
    assert !CrossedAt(ys, zs, xs, k, locale);
    assert !CrossedAt(zs, xs, ys, k, locale);
  }

  /** The first and the last version share the token at which the middle one parts from both: the
      middle one ties with them, and unmasked they compare equal or in order. */
  lemma TieTransitive(xs: seq<Token>, ys: seq<Token>, zs: seq<Token>, k: nat, vs: set<seq<Token>>, locale: Locale)
    requires xs in vs && ys in vs && zs in vs && !MaskedIn(vs, locale)
    requires Fair(xs, locale) && Fair(ys, locale)
    requires Parts(xs, ys, k) && AgreeBefore(ys, zs, k) && At(xs, k) == At(zs, k)
    requires CmpToken(At(xs, k), At(ys, k), locale) <= 0 && CmpToken(At(ys, k), At(zs, k), locale) <= 0
    ensures CmpTokens(xs, zs, locale) <= 0
  {
    AgreeBeforeTrans(xs, ys, zs, k);
    FairAt(xs, k, locale);
    FairAt(ys, k, locale);
    TokenOrder(At(xs, k), At(ys, k), locale);
    assert TiedAt(xs, ys, k, locale);
    assert !MaskedAt(xs, zs, ys, k, locale);
    AboveIff(xs, zs, locale);
  }

  lemma PartTransitive(xs: seq<Token>, ys: seq<Token>, zs: seq<Token>, vs: set<seq<Token>>, locale: Locale)
    requires xs in vs && ys in vs && zs in vs && !CrossedIn(vs, locale) && !MaskedIn(vs, locale)
    requires Fair(xs, locale) && Fair(ys, locale) && Fair(zs, locale)
    requires !Agree(xs, ys) && !Agree(ys, zs)
    requires CmpTokens(xs, ys, locale) <= 0 && CmpTokens(ys, zs, locale) <= 0
    ensures CmpTokens(xs, zs, locale) <= 0
  {
    var i := FirstPart(xs, ys);
    var j := FirstPart(ys, zs);
    CmpAtPart(xs, ys, i, locale);
    CmpAtPart(ys, zs, j, locale);
    var k := if i < j then i else j;
    AgreeBeforeTrans(xs, ys, zs, k);
    if At(xs, k) == At(zs, k) {
      TieTransitive(xs, ys, zs, k, vs, locale);
    } else {
      if i == j {
        FairAt(xs, k, locale);
        FairAt(ys, k, locale);
        FairAt(zs, k, locale);
        NotCrossedAt(xs, ys, zs, k, vs, locale);
        TokenTransitive(At(xs, k), At(ys, k), At(zs, k), locale);
      }
      assert Parts(xs, zs, k);
      CmpAtPart(xs, zs, k, locale);
    }
  }

  lemma SameAs(xs: seq<Token>, ys: seq<Token>, zs: seq<Token>, locale: Locale)
    requires Agree(xs, ys)
    ensures CmpTokens(xs, zs, locale) == CmpTokens(ys, zs, locale)
    ensures CmpTokens(zs, xs, locale) == CmpTokens(zs, ys, locale)
  {
    AgreeOrPart(xs, zs, 0);
    if Agree(xs, zs) {
      forall i: nat ensures At(ys, i) == At(zs, i) {
        assert At(xs, i) == At(ys, i) && At(xs, i) == At(zs, i);
      }
      CmpAgree(xs, zs, 0, locale);
      CmpAgree(ys, zs, 0, locale);
      CmpAgree(zs, xs, 0, locale);
      CmpAgree(zs, ys, 0, locale);
    } else {
      var k :| Parts(xs, zs, k);
      forall i: nat | i < k ensures At(ys, i) == At(zs, i) {
        assert At(xs, i) == At(ys, i) && At(xs, i) == At(zs, i);
      }
      assert At(xs, k) == At(ys, k);
      assert Parts(ys, zs, k) && Parts(zs, xs, k) && Parts(zs, ys, k);
      CmpAtPart(xs, zs, k, locale);
      CmpAtPart(ys, zs, k, locale);
      CmpAtPart(zs, xs, k, locale);
      CmpAtPart(zs, ys, k, locale);
    }
  }

  lemma WeakTransitive(xs: seq<Token>, ys: seq<Token>, zs: seq<Token>, vs: set<seq<Token>>, locale: Locale)
    requires xs in vs && ys in vs && zs in vs && !CrossedIn(vs, locale) && !MaskedIn(vs, locale)
    requires Fair(xs, locale) && Fair(ys, locale) && Fair(zs, locale)
    requires CmpTokens(xs, ys, locale) <= 0 && CmpTokens(ys, zs, locale) <= 0
    ensures CmpTokens(xs, zs, locale) <= 0
  {
    if Agree(xs, ys) {
      SameAs(xs, ys, zs, locale);
    } else if Agree(ys, zs) {
      SameAs(ys, zs, xs, locale);
    } else {
      PartTransitive(xs, ys, zs, vs, locale);
    }
  }

  lemma CrossingBreaks(low: seq<Token>, high: seq<Token>, text: seq<Token>, k: nat, locale: Locale)
    requires CrossedAt(low, high, text, k, locale)
    ensures CmpTokens(low, high, locale) < 0 && CmpTokens(high, text, locale) <= 0 && CmpTokens(text, low, locale) <= 0
  {
    AgreeBeforeTrans(low, low, high, k);
    AgreeBeforeTrans(high, low, text, k);
    AgreeBeforeTrans(low, low, text, k);
    assert Parts(low, high, k) && Parts(high, text, k) && Parts(text, low, k);
    CmpAtPart(low, high, k, locale);
    CmpAtPart(high, text, k, locale);
    CmpAtPart(text, low, k, locale);
  }

  lemma MaskingBreaks(xs: seq<Token>, zs: seq<Token>, tied: seq<Token>, k: nat, locale: Locale)
    requires Fair(xs, locale) && Fair(tied, locale) && MaskedAt(xs, zs, tied, k, locale)
    ensures CmpTokens(xs, tied, locale) <= 0 && CmpTokens(tied, zs, locale) <= 0 && CmpTokens(xs, zs, locale) > 0
  {
    AboveIff(xs, zs, locale);
    assert At(xs, k) == At(zs, k);
    forall i: nat | i < k ensures At(tied, i) == At(zs, i) {
      assert At(xs, i) == At(tied, i) && At(xs, i) == At(zs, i);
    }
    assert Parts(tied, zs, k);
    CmpAtPart(xs, tied, k, locale);
    CmpAtPart(tied, zs, k, locale);
    FairAt(xs, k, locale);
    FairAt(tied, k, locale);
    TokenOrder(At(xs, k), At(tied, k), locale);
  }

  /** The comparison is a total preorder on a set of versions exactly when no text token crosses two
      numbers, and no tie in the collation masks a later difference. */
  lemma PreorderIffUncrossed(vs: set<seq<Token>>, locale: Locale)
    requires forall v | v in vs :: Fair(v, locale)
    ensures CmpTransitive(vs, locale) <==> !CrossedIn(vs, locale) && !MaskedIn(vs, locale)
  {
    if CrossedIn(vs, locale) {
      var low, high, text, k :| low in vs && high in vs && text in vs && CrossedAt(low, high, text, k, locale);
      CrossingBreaks(low, high, text, k, locale);
      CmpEqualIff(low, high, locale);
      assert !(CmpTokens(high, low, locale) <= 0);
    } else if MaskedIn(vs, locale) {
      var xs, zs, tied, k :| xs in vs && zs in vs && tied in vs && MaskedAt(xs, zs, tied, k, locale);
      MaskingBreaks(xs, zs, tied, k, locale);
    } else {
      forall x, y, z | x in vs && y in vs && z in vs
        && CmpTokens(x, y, locale) <= 0 && CmpTokens(y, z, locale) <= 0
        ensures CmpTokens(x, z, locale) <= 0
      {
        WeakTransitive(x, y, z, vs, locale);
      }
    }
  }

  /** Versions made of numbers only are a total preorder under any locale. */
  lemma NumericPreorder(vs: set<seq<Token>>, locale: Locale)
    requires forall v | v in vs :: AllNumeric(v)
    ensures CmpTransitive(vs, locale) && !CrossedIn(vs, locale) && !MaskedIn(vs, locale)
  {
    forall low, high, text, k: nat | low in vs && high in vs && text in vs
      ensures !CrossedAt(low, high, text, k, locale)
    {
      assert At(text, k).Num?;
    }
    forall xs, zs, tied, k: nat | xs in vs && zs in vs && tied in vs
      ensures !MaskedAt(xs, zs, tied, k, locale)
    {
      assert At(xs, k).Num? && At(tied, k).Num?;
    }
    PreorderIffUncrossed(vs, locale);
  }

  /** A piece without separators is one token: digits a number, anything else itself. */
  lemma OneToken(piece: string)
    requires forall i | 0 <= i < |piece| :: piece[i] !in ".-+"
    ensures Tokens(piece) == [TokenOf(piece)]
    ensures IsDigits(piece) ==> Tokens(piece) == [Num(Value(piece))]
    ensures !IsDigits(piece) ==> Tokens(piece) == [Txt(piece)]
  {
    assert Dotted(piece) == piece;
    SplitPlain(piece, '.');
  }

  /** A plain number is one numeric token of that value. */
  lemma NumberToken(n: nat)
    ensures Tokens(Decimal(n)) == [Num(n)]
  {
    OneToken(Decimal(n));
  }

  lemma {:induction false} ValuePadded(s: string)
    requires forall i | 0 <= i < |s| :: '0' <= s[i] <= '9'
    ensures Value("0" + s) == Value(s)
  {
    var padded := "0" + s;
    if s != "" {
      var n := |s| - 1;
      ValuePadded(s[..n]);
      assert padded[..|padded| - 1] == "0" + s[..n];
    }
  }

  /** Leading zeros make no difference. */
  lemma PaddedNumberToken(n: nat)
    ensures Tokens("0" + Decimal(n)) == [Num(n)]
  {
    ValuePadded(Decimal(n));
    OneToken("0" + Decimal(n));
  }

  lemma TextToken()
    ensures Tokens("1a") == [Txt("1a")]
  {
    OneToken("1a");
    assert "1a"[1] == 'a';
  }

  lemma Numerals()
    ensures Decimal(10) == "10" && Decimal(2) == "2" && Decimal(0) == "0"
  {
    assert Decimal(10) == Decimal(1) + "0";
  }

  /** Each separator splits off whole what is before it and what is after it; with the single pieces this
      says what the tokens of any version are. */
  lemma TokensAppend(a: string, sep: char, b: string)
    requires sep in ".-+"
    ensures Tokens(a + [sep] + b) == Tokens(a) + Tokens(b)
  {
    DottedAppend(a, sep, b);
    SplitAppend(Dotted(a), Dotted(b), '.');
    TokensOfAppend(Split(Dotted(a), '.'), Split(Dotted(b), '.'));
  }

  lemma DottedAppend(a: string, sep: char, b: string)
    requires sep in ".-+"
    ensures Dotted(a + [sep] + b) == Dotted(a) + ['.'] + Dotted(b)
  {
  }

  lemma TokensOfAppend(a: seq<string>, b: seq<string>)
    ensures TokensOf(a + b) == TokensOf(a) + TokensOf(b)
  {
  }

  /** The version written `n1.n2.….nk`. */
  function Numbered(ns: seq<nat>): string
    requires ns != []
  {
    if |ns| == 1 then Decimal(ns[0]) else Numbered(ns[..|ns| - 1]) + "." + Decimal(ns[|ns| - 1])
  }

  function Nums(ns: seq<nat>): (ts: seq<Token>)
    ensures |ts| == |ns| && forall i | 0 <= i < |ts| :: ts[i] == Num(ns[i])
  {
    seq(|ns|, i requires 0 <= i < |ns| => Num(ns[i]))
  }

  lemma NumsLast(ns: seq<nat>)
    requires ns != []
    ensures Nums(ns) == Nums(ns[..|ns| - 1]) + [Num(ns[|ns| - 1])]
  {
  }

  /** Its tokens are those numbers. */
  lemma {:induction false} NumberedTokens(ns: seq<nat>)
    requires ns != []
    ensures Tokens(Numbered(ns)) == Nums(ns)
  {
    var n := |ns| - 1;
    NumberToken(ns[n]);
    NumsLast(ns);
    if n > 0 {
      NumberedTokens(ns[..n]);
      NumberedLast(ns);
    }
  }

  lemma NumberedLast(ns: seq<nat>)
    requires |ns| > 1
    ensures Tokens(Numbered(ns)) == Tokens(Numbered(ns[..|ns| - 1])) + Tokens(Decimal(ns[|ns| - 1]))
  {
    TokensAppend(Numbered(ns[..|ns| - 1]), '.', Decimal(ns[|ns| - 1]));
    assert "." == ['.'];
  }

  /** Numeric versions compare by their first differing number, under any locale. */
  lemma NumberedCompare(xs: seq<nat>, ys: seq<nat>, k: nat, locale: Locale)
    requires k < |xs| && k < |ys| && xs[k] != ys[k] && forall i | 0 <= i < k :: xs[i] == ys[i]
    ensures CmpVersion(Numbered(xs), Numbered(ys), locale) + ys[k] == xs[k]
  {
    NumberedTokens(xs);
    NumberedTokens(ys);
    CmpAtPart(Tokens(Numbered(xs)), Tokens(Numbered(ys)), k, locale);
  }

  /** A trailing zero, however it is separated, makes no difference. */
  lemma TrailingZero(v: string, sep: char, locale: Locale)
    requires sep in ".-+"
    ensures CmpVersion(v + [sep] + "0", v, locale) == 0
  {
    TokensAppend(v, sep, "0");
    Numerals();
    NumberToken(0);
    CmpAgree(Tokens(v + [sep] + "0"), Tokens(v), 0, locale);
  }

  /** 1.10.0 is newer than 1.2.0. */
  lemma TenAfterTwo(locale: Locale)
    ensures CmpVersion(Numbered([1, 2, 0]), Numbered([1, 10, 0]), locale) == -8
  {
    NumberedCompare([1, 2, 0], [1, 10, 0], 1, locale);
  }

  lemma MixedTokensCycle(locale: Locale)
    requires locale("10", "1a") < 0 && locale("1a", "2") < 0
    ensures CmpTokens([Num(2)], [Num(10)], locale) < 0
    ensures CmpTokens([Num(10)], [Txt("1a")], locale) < 0
    ensures CmpTokens([Txt("1a")], [Num(2)], locale) < 0
  {
    Numerals();
  }

  /** 10, 1a and 2 go round in a circle wherever "10" sorts before "1a" and "1a" before "2". */
  lemma MixedVersionsCycle(locale: Locale)
    requires locale("10", "1a") < 0 && locale("1a", "2") < 0
    ensures CmpVersion("2", "10", locale) < 0
    ensures CmpVersion("10", "1a", locale) < 0
    ensures CmpVersion("1a", "2", locale) < 0
  {
    Numerals();
    NumberToken(2);
    NumberToken(10);
    TextToken();
    MixedTokensCycle(locale);
  }

  /** Where "a" and "b" collate as equal, b ties with both a.1 and a.2, which differ. */
  lemma TiedVersionsCycle(locale: Locale)
    requires locale("a", "b") == 0 && locale("b", "a") == 0
    ensures CmpTokens([Txt("a"), Num(2)], [Txt("b")], locale) <= 0
    ensures CmpTokens([Txt("b")], [Txt("a"), Num(1)], locale) <= 0
    ensures CmpTokens([Txt("a"), Num(2)], [Txt("a"), Num(1)], locale) > 0
  {
    assert At([Txt("a"), Num(2)], 0) == At([Txt("a"), Num(1)], 0);
  }
}
