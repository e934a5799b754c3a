/**
  The word-case selector (word_case): Russian nouns after a numeral take one
  of three forms, chosen from the last one or two digits of the count.
 */
module Plural {
  import opened Options
  import opened Text

  /** The seven units the humanizer can name. */
  datatype Unit = Year | Month | Week | Day | Hour | Minute | Second

  /**
    The three noun forms: One is the singular (1, 21, 101, ...), Few the
    paucal (2-4, 22-24, ...), Many the general plural (0, 5-20, 25-30, ...).
   */
  datatype Form = One | Few | Many

  /** The noun of unit u in form f, in the accusative used by the phrases. */
  function Noun(u: Unit, f: Form): string {
    match u
    case Year => (match f case One => "год" case Few => "года" case Many => "лет")
    case Month => (match f case One => "месяц" case Few => "месяца" case Many => "месяцев")
    case Week => (match f case One => "неделю" case Few => "недели" case Many => "недель")
    case Day => (match f case One => "день" case Few => "дня" case Many => "дней")
    case Hour => (match f case One => "час" case Few => "часа" case Many => "часов")
    case Minute => (match f case One => "минуту" case Few => "минуты" case Many => "минут")
    case Second => (match f case One => "секунду" case Few => "секунды" case Many => "секунд")
  }

  /** Reads a noun back to the unit and form it is. */
  function NounIndex(w: string): Option<(Unit, Form)> {
    if w == "год" then Some((Year, One))
    else if w == "года" then Some((Year, Few))
    else if w == "лет" then Some((Year, Many))
    else if w == "месяц" then Some((Month, One))
    else if w == "месяца" then Some((Month, Few))
    else if w == "месяцев" then Some((Month, Many))
    else if w == "неделю" then Some((Week, One))
    else if w == "недели" then Some((Week, Few))
    else if w == "недель" then Some((Week, Many))
    else if w == "день" then Some((Day, One))
    else if w == "дня" then Some((Day, Few))
    else if w == "дней" then Some((Day, Many))
    else if w == "час" then Some((Hour, One))
    else if w == "часа" then Some((Hour, Few))
    else if w == "часов" then Some((Hour, Many))
    else if w == "минуту" then Some((Minute, One))
    else if w == "минуты" then Some((Minute, Few))
    else if w == "минут" then Some((Minute, Many))
    else if w == "секунду" then Some((Second, One))
    else if w == "секунды" then Some((Second, Few))
    else if w == "секунд" then Some((Second, Many))
    else None
  }

  /**
    The 21 nouns are pairwise distinct, so a noun names its unit and form;
    none is empty and none contains a space.
   */
  lemma NounTable(u: Unit, f: Form)
    ensures NounIndex(Noun(u, f)) == Some((u, f))
    ensures |Noun(u, f)| > 0
    ensures forall i :: 0 <= i < |Noun(u, f)| ==> Noun(u, f)[i] != ' '
  {
    match u
    case Year =>
    case Month =>
    case Week =>
    case Day =>
    case Hour =>
    case Minute =>
    case Second =>
  }

  /**
    The form a count takes. A zero count takes the plural; otherwise the sign
    is dropped, 10..20 modulo 100 takes the plural, and the last digit
    decides the rest.
   */
  function FormOf(count: int): (f: Form)
    ensures f == One <==> Abs(count) % 10 == 1 && Abs(count) % 100 != 11
    ensures f == Few <==> 2 <= Abs(count) % 10 <= 4 && !(12 <= Abs(count) % 100 <= 14)
  {
    if count == 0 then Many
    else
      var n := if count < 0 then -count else count;
      if 10 <= n % 100 <= 20 then LastDigit(n); Many
      else if n % 10 == 1 then One
      else if 2 <= n % 10 <= 4 then Few
      else Many
  }

  /** The last digit of a number is the last digit of its last two digits. */
  lemma LastDigit(n: nat)
    ensures n % 10 == n % 100 % 10
  {
    var q, r := n / 100, n % 100;
    assert n == 100 * q + r;
    var t, u := r / 10, r % 10;
    assert r == 10 * t + u && 0 <= u < 10;
    TenthRemainder(10 * q + t, u);
  }

  /** A digit added to a multiple of ten is the remainder by ten. */
  lemma TenthRemainder(k: int, u: int)
    requires 0 <= u < 10
    ensures (10 * k + u) % 10 == u
  {
  }

  /**
    word_case: a space, then the noun of unit u in the form the count takes.
    The space is the word's only one, so the word can follow a numeral.
   */
  function WordCase(u: Unit, count: int): (w: string)
    ensures |w| >= 2 && w[0] == ' '
    ensures forall i :: 1 <= i < |w| ==> w[i] != ' '
  {
    NounTable(u, FormOf(count));
    " " + Noun(u, FormOf(count))
  }

  /** The sign of the count never changes the word. */
  lemma WordCaseIgnoresSign(u: Unit, count: int)
    ensures WordCase(u, -count) == WordCase(u, count)
    ensures FormOf(-count) == FormOf(count)
  {
  }

  /** Only the last two digits of the count matter. */
  lemma {:induction false} FormOfPeriodic(count: nat, k: nat)
    ensures FormOf(count + 100 * k) == FormOf(count)
  {
    if k > 0 {
      FormOfPeriodic(count, k - 1);
      FormOfStep(count + 100 * (k - 1));
    }
  }

  /** One step of the period: adding 100 keeps the last two digits. */
  lemma FormOfStep(n: nat)
    ensures FormOf(n + 100) == FormOf(n)
  {
    assert (n + 100) % 100 == n % 100;
    assert (n + 100) % 10 == n % 10;
  }

  /**
    Every word is one space followed by one of the three nouns of the unit,
    and the word read back names the unit and the form of the count.
   */
  lemma WordCaseShape(u: Unit, count: int)
    ensures WordCase(u, count) == " " + Noun(u, One)
         || WordCase(u, count) == " " + Noun(u, Few)
         || WordCase(u, count) == " " + Noun(u, Many)
    ensures NounIndex(WordCase(u, count)[1..]) == Some((u, FormOf(count)))
  {
    assert WordCase(u, count)[1..] == Noun(u, FormOf(count));
    NounTable(u, FormOf(count));
  }

  /** The forms the documented small counts take. */
  lemma FormOfExamples()
    ensures FormOf(0) == Many
    ensures FormOf(1) == One && FormOf(21) == One && FormOf(101) == One
    ensures forall n :: 2 <= n <= 4 ==> FormOf(n) == Few
    ensures forall n :: 22 <= n <= 24 ==> FormOf(n) == Few
    ensures forall n :: 5 <= n <= 20 ==> FormOf(n) == Many
    ensures FormOf(111) == Many && FormOf(-3) == Few
  {
  }
}
