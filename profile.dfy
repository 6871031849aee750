/**
 * The profile page's WhatsApp number field: every keystroke replaces the field with the typed
 * text stripped of everything that is not an ASCII digit (`value.replace(/\D/g, '')`).
 */
module Profile {
  import opened Seqs
  import opened JsText

  /** `value.replace(/\D/g, '')`: the digits of `input`, in order. */
  function SanitisePhone(input: string): (phone: string)
    ensures AllDigits(phone)
    ensures |phone| <= |input|
  {
    Filter(IsAsciiDigit, input)
  }

  /** Sanitising works character by character: it distributes over concatenation... */
  lemma SanitiseDistributes(a: string, b: string)
    ensures SanitisePhone(a + b) == SanitisePhone(a) + SanitisePhone(b)
  {
    FilterAppend(IsAsciiDigit, a, b);
  }

  /** ...and keeps a single character exactly when it is a digit. */
  lemma SanitiseOneChar(c: char)
    ensures SanitisePhone([c]) == if IsAsciiDigit(c) then [c] else []
  {
    assert [c][1..] == [];
  }

  /** Each digit occurs as often as in the input; no other character occurs. */
  lemma SanitiseCounts(input: string, c: char)
    ensures multiset(SanitisePhone(input))[c] == if IsAsciiDigit(c) then multiset(input)[c] else 0
  {
    FilterMultiset(IsAsciiDigit, input, c);
  }

  /** Sanitising an already sanitised number changes nothing. */
  lemma SanitiseIdempotent(input: string)
    ensures SanitisePhone(SanitisePhone(input)) == SanitisePhone(input)
  {
    FilterKeepsAll(IsAsciiDigit, SanitisePhone(input));
  }

  /** The length is kept exactly when the input is all digits, and then so is the text. */
  lemma SanitiseKeepsDigitsOnly(input: string)
    ensures |SanitisePhone(input)| == |input| <==> AllDigits(input)
    ensures SanitisePhone(input) == input <==> AllDigits(input)
  {
    FilterKeepsAll(IsAsciiDigit, input);
  }
}
