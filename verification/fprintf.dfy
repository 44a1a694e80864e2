/**
 * What the socket write in SendCommand actually produces. The framed
 * command is passed to Go's fmt.Fprintf as its FORMAT, with no operands,
 * so every '%' in it starts a formatting directive. This module models
 * that formatting, except for directives that take their width or
 * precision from an operand ('*') or name an operand ('[n]').
 */
module Fprintf {
  import opened Commands

  /** The flag characters a directive may carry after its '%'. */
  predicate IsFlag(c: char)
  {
    c == '#' || c == '0' || c == '+' || c == '-' || c == ' '
  }

  predicate IsDigit(c: char)
  {
    '0' <= c <= '9'
  }

  /** The position after the flags starting at `i`. */
  function SkipFlags(format: string, i: nat): (j: nat)
    requires i <= |format|
    ensures i <= j <= |format|
    ensures j < |format| ==> !IsFlag(format[j])
    ensures forall k :: i <= k < j ==> IsFlag(format[k])
    decreases |format| - i
  {
    if i < |format| && IsFlag(format[i]) then SkipFlags(format, i + 1) else i
  }

  /**
   * Go's number scan inside a directive: the position after the digits
   * starting at `i`, where `num` is the value read so far. A number already
   * above 1000000 with one more digit to read makes the scan give up at the
   * end of the format.
   */
  function SkipDigits(format: string, i: nat, num: nat): (j: nat)
    requires i <= |format|
    ensures i <= j <= |format|
    ensures j < |format| ==> !IsDigit(format[j])
    decreases |format| - i
  {
    if i < |format| && IsDigit(format[i]) then
      if num > 1000000 then |format|
      else SkipDigits(format, i + 1, num * 10 + (format[i] as int - '0' as int))
    else i
  }

  /** The position after the flags and width of the directive whose '%' is just before `i`. */
  function WidthEnd(format: string, i: nat): (w: nat)
    requires i <= |format|
    ensures i <= w <= |format|
  {
    SkipDigits(format, SkipFlags(format, i), 0)
  }

  /**
   * The position of the verb of the directive whose '%' is just before `i`:
   * flags, a width, then a precision when a '.' follows with something after it.
   */
  function VerbAt(format: string, i: nat): (v: nat)
    requires i <= |format|
    ensures i <= v <= |format|
  {
    var w := WidthEnd(format, i);
    if w + 1 < |format| && format[w] == '.' then SkipDigits(format, w + 1, 0) else w
  }

  /**
   * Whether the directive whose '%' is just before `i` reads a width or a
   * precision from an operand ('*' where the width or the precision starts)
   * or names an operand ('[').
   */
  predicate TakesOperandSyntax(format: string, i: nat)
    requires i <= |format|
  {
    var v := VerbAt(format, i);
    v < |format|
    && (format[v] == '['
        || (format[v] == '*' && (v == SkipFlags(format, i) || (v == WidthEnd(format, i) + 1 && format[v - 1] == '.'))))
  }

  /** Whether every directive of `format` is one this model covers. */
  predicate Modelled(format: string)
    decreases |format|
  {
    if format == [] then true
    else if format[0] != '%' then Modelled(format[1..])
    else
      var v := VerbAt(format, 1);
      v == |format| || (!TakesOperandSyntax(format, 1) && Modelled(format[v + 1..]))
  }

  /**
   * fmt.Fprintf(w, format) with no operands: text is copied, "%%" gives
   * '%', a directive with any other verb gives "%!" verb "(MISSING)", and a
   * '%' with no verb after it gives "%!(NOVERB)" and ends the output.
   */
  function FormatNoOperands(format: string): (out: string)
    requires Modelled(format)
    decreases |format|
  {
    if format == [] then []
    else if format[0] != '%' then [format[0]] + FormatNoOperands(format[1..])
    else
      var v := VerbAt(format, 1);
      if v == |format| then "%!(NOVERB)"
      else if format[v] == '%' then "%" + FormatNoOperands(format[v + 1..])
      else "%!" + [format[v]] + "(MISSING)" + FormatNoOperands(format[v + 1..])
  }

  /** Text without '%' is covered by the model and copied unchanged. */
  lemma {:induction false} FormatVerbatim(text: string)
    requires '%' !in text
    ensures Modelled(text)
    ensures FormatNoOperands(text) == text
    decreases |text|
  {
    if text != [] {
      assert text[0] != '%';
      assert '%' !in text[1..] by {
        assert forall c :: c in text[1..] ==> c in text;
      }
      FormatVerbatim(text[1..]);
      assert [text[0]] + text[1..] == text;
    }
  }

  /** Text without '%' in front of a format is copied unchanged. */
  lemma {:induction false} FormatPlainPrefix(text: string, format: string)
    requires '%' !in text && Modelled(format)
    ensures Modelled(text + format)
    ensures FormatNoOperands(text + format) == text + FormatNoOperands(format)
    decreases |text|
  {
    var whole := text + format;
    if text == [] {
      assert whole == format;
    } else {
      assert whole[0] == text[0] && text[0] != '%';
      assert whole[1..] == text[1..] + format;
      assert '%' !in text[1..] by {
        assert forall c :: c in text[1..] ==> c in text;
      }
      FormatPlainPrefix(text[1..], format);
      assert FormatNoOperands(whole) == [text[0]] + FormatNoOperands(whole[1..]);
      assert [text[0]] + (text[1..] + FormatNoOperands(format)) == text + FormatNoOperands(format);
    }
  }

  /** A '%' at the end of a format is a directive without a verb. */
  lemma TrailingPercent()
    ensures Modelled("?%")
    ensures FormatNoOperands("?%") == "?%!(NOVERB)"
  {
    assert "?%"[1..] == "%";
    assert VerbAt("%", 1) == 1;
  }

  /** A '.' with nothing after it is the verb, not the start of a precision. */
  lemma TrailingDotIsVerb()
    ensures Modelled("%.")
    ensures FormatNoOperands("%.") == "%!.(MISSING)"
  {
    assert SkipFlags("%.", 1) == 1;
    assert SkipDigits("%.", 1, 0) == 1;
    assert VerbAt("%.", 1) == 1;
    assert "%."[2..] == [];
  }

  /** A width too long for Go's number scan leaves the directive without a verb. */
  lemma OverlongWidthNoVerb()
    ensures Modelled("%12345678x;")
    ensures FormatNoOperands("%12345678x;") == "%!(NOVERB)"
  {
    var f := "%12345678x;";
    assert SkipFlags(f, 1) == 1;
    assert SkipDigits(f, 8, 1234567) == |f|;
    assert SkipDigits(f, 1, 0) == SkipDigits(f, 8, 1234567);
    assert VerbAt(f, 1) == |f|;
  }

  /** The bytes SendCommand puts on the socket, as the code is written. */
  function SentAsWritten(command: string): (sent: string)
    requires Modelled(Framed(command))
    ensures '%' !in command ==> sent == Framed(command)
  {
    var line := Framed(command);
    if '%' !in command then
      assert '%' !in line by {
        assert forall c :: c in line ==> c == '?' || c == ';' || c in command;
      }
      FormatVerbatim(line);
      FormatNoOperands(line)
    else
      FormatNoOperands(line)
  }

  /** Every command without '%' is covered by the model and reaches the socket exactly framed. */
  lemma NoPercentSentFramed(command: string)
    requires '%' !in command
    ensures Modelled(Framed(command))
    ensures SentAsWritten(command) == Framed(command)
  {
    var line := Framed(command);
    assert '%' !in line by {
      assert forall c :: c in line ==> c == '?' || c == ';' || c in command;
    }
    FormatVerbatim(line);
  }

  /** The directive "%\"" at the head of a format becomes a missing-operand marker. */
  lemma QuoteVerbMissing(rest: string)
    requires Modelled(rest)
    ensures Modelled("%\"" + rest)
    ensures FormatNoOperands("%\"" + rest) == "%!\"(MISSING)" + FormatNoOperands(rest)
  {
    var format := "%\"" + rest;
    assert format[0] == '%' && format[1] == '"';
    assert SkipFlags(format, 1) == 1;
    assert SkipDigits(format, 1, 0) == 1;
    assert VerbAt(format, 1) == 1;
    assert format[2..] == rest;
  }

  /**
   * A command holding the two characters `%"` (as a JSON key ending in '%'
   * does) and no other '%' is sent with a missing-operand marker in their place.
   */
  lemma {:induction false} QuoteAfterPercentMangled(before: string, after: string)
    requires '%' !in before && '%' !in after
    ensures Modelled(Framed(before + "%\"" + after))
    ensures SentAsWritten(before + "%\"" + after) == "?" + before + "%!\"(MISSING)" + after + ";"
    ensures |SentAsWritten(before + "%\"" + after)| == |Framed(before + "%\"" + after)| + 10
  {
    var command := before + "%\"" + after;
    var head, rest := "?" + before, after + ";";
    assert '%' !in head && '%' !in rest by {
      assert forall c :: c in head ==> c == '?' || c in before;
      assert forall c :: c in rest ==> c == ';' || c in after;
    }
    assert Framed(command) == head + ("%\"" + rest);
    FormatVerbatim(rest);
    QuoteVerbMissing(rest);
    FormatPlainPrefix(head, "%\"" + rest);
    assert head + ("%!\"(MISSING)" + rest) == "?" + before + "%!\"(MISSING)" + after + ";";
  }

  /** The watch option `{"%":true}` reaches the daemon mangled. */
  lemma PercentInOptionMangled()
    ensures Modelled(Framed("WATCH={\"%\":true}"))
    ensures SentAsWritten("WATCH={\"%\":true}") == "?WATCH={\"%!\"(MISSING):true};"
  {
    var before, after := "WATCH={\"", ":true}";
    OptionParts(before, after);
    QuoteAfterPercentMangled(before, after);
    MangledParts(before, after);
  }

  lemma OptionParts(before: string, after: string)
    requires before == "WATCH={\"" && after == ":true}"
    ensures '%' !in before && '%' !in after
    ensures before + "%\"" + after == "WATCH={\"%\":true}"
  {
  }

  lemma MangledParts(before: string, after: string)
    requires before == "WATCH={\"" && after == ":true}"
    ensures "?" + before + "%!\"(MISSING)" + after + ";" == "?WATCH={\"%!\"(MISSING):true};"
  {
  }
}
