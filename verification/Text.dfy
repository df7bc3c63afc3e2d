/** Go's functions on decimal texts, and its cut at a hyphen. */
module Text {
  import opened Common

  /** Go's `strings.Cut` at the first hyphen. */
  function Cut(s: string): (r: Option<(string, string)>)
    ensures r.Some? ==> s == r.value.0 + "-" + r.value.1 && '-' !in r.value.0
    ensures r.None? ==> '-' !in s
  {
    if s == "" then None
    else if s[0] == '-' then Some(("", s[1..]))
    else match Cut(s[1..])
      case None => None
      case Some(parts) => Some(([s[0]] + parts.0, parts.1))
  }

  lemma {:induction false} CutFirst(before: string, after: string)
    requires '-' !in before
    ensures Cut(before + "-" + after) == Some((before, after))
  {
    var s := before + "-" + after;
    if before == "" {
      assert s[1..] == after;
    } else {
      assert s[1..] == before[1..] + "-" + after && s[0] == before[0];
      CutFirst(before[1..], after);
      assert [before[0]] + before[1..] == before;
    }
  }

  predicate Digits(text: string) {
    text != "" && forall i :: 0 <= i < |text| ==> '0' <= text[i] <= '9'
  }

  function Number(text: string): nat
    requires forall i :: 0 <= i < |text| ==> '0' <= text[i] <= '9'
  {
    if text == "" then 0 else 10 * Number(text[..|text| - 1]) + (text[|text| - 1] - '0') as nat
  }

  /** `strconv.ParseUint` in base ten. */
  function ParseUint(text: string): Option<U64> {
    if Digits(text) && Number(text) <= MAX_UINT64 then Some(Number(text)) else None
  }

  /** `strconv.FormatUint` in base ten. */
  function FormatUint(n: nat): string {
    (if n < 10 then "" else FormatUint(n / 10)) + ['0' + (n % 10) as char]
  }

  lemma {:induction false} FormatParses(n: nat)
    ensures Digits(FormatUint(n)) && Number(FormatUint(n)) == n
  {
    var text := FormatUint(n);
    if n >= 10 {
      FormatParses(n / 10);
      assert text[..|text| - 1] == FormatUint(n / 10);
    } else {
      assert text[..|text| - 1] == "";
    }
  }

  /** The base is ten, and the first digit counts most. */
  lemma {:induction false} DecimalExample()
    ensures FormatUint(1907) == "1907" && Number("1907") == 1907
  {
    assert FormatUint(190) == "190" && FormatUint(19) == "19" && FormatUint(1) == "1";
    FormatParses(1907);
  }
}
