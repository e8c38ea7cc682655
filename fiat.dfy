/**
 * The fiat currencies the updater posts prices for. The variants are the
 * sixteen that `main` pairs with a `Prices` field, in the order in which
 * both the `Prices` record and the candidate list declare them.
 */
module Fiat {

  datatype FiatCurrency =
    | ARS | BRL | CAD | CLP | COP | EUR | GBP | IDR
    | MXN | MYR | NGN | PHP | SGD | THB | VES | VND

  /** Declaration order: ARS first, VND last. */
  const Declared: seq<FiatCurrency> :=
    [ARS, BRL, CAD, CLP, COP, EUR, GBP, IDR, MXN, MYR, NGN, PHP, SGD, THB, VES, VND]

  const Count: nat := 16

  /** Position of a currency in the declaration order. */
  function Index(c: FiatCurrency): (i: nat)
    ensures i < Count
  {
    match c
    case ARS => 0  case BRL => 1  case CAD => 2  case CLP => 3
    case COP => 4  case EUR => 5  case GBP => 6  case IDR => 7
    case MXN => 8  case MYR => 9  case NGN => 10 case PHP => 11
    case SGD => 12 case THB => 13 case VES => 14 case VND => 15
  }

  /** The ISO code, which is also the JSON key of the matching `Prices` field. */
  function Code(c: FiatCurrency): string
  {
    match c
    case ARS => "ARS" case BRL => "BRL" case CAD => "CAD" case CLP => "CLP"
    case COP => "COP" case EUR => "EUR" case GBP => "GBP" case IDR => "IDR"
    case MXN => "MXN" case MYR => "MYR" case NGN => "NGN" case PHP => "PHP"
    case SGD => "SGD" case THB => "THB" case VES => "VES" case VND => "VND"
  }

  /** Distinct currencies have distinct codes, so the JSON keys never clash. */
  lemma CodeInjective()
    ensures forall c, d :: Code(c) == Code(d) ==> c == d
  {
    forall c, d | Code(c) == Code(d) ensures c == d {
      assert Code(c)[..] == Code(d)[..];
    }
  }

  /** `Index` and `Declared` agree: the currency at position `Index(c)` is `c`. */
  lemma IndexOfDeclared(c: FiatCurrency)
    ensures |Declared| == Count && Declared[Index(c)] == c
  {
  }

  /** The declaration order lists every currency. */
  lemma EveryCurrencyDeclared()
    ensures forall c :: c in Declared
  {
    forall c ensures c in Declared {
      IndexOfDeclared(c);
    }
  }

  /** Every currency occurs exactly once in the declaration order. */
  lemma DeclaredIsEnumeration()
    ensures forall i, j :: 0 <= i < j < |Declared| ==> Index(Declared[i]) < Index(Declared[j])
    ensures forall i :: 0 <= i < |Declared| ==> Index(Declared[i]) == i
  {
  }
}
