/** The decisions of the form validators in Validation.cs. A control is
    reduced to what a check reads from it (its text, its selected index or
    the number of selected or checked items); the tooltip that a failing
    check shows is a UI side effect and is not modelled. Library predicates
    the source calls (the TryParse methods, Char.IsDigit, the e-mail regular
    expression) are parameters. */
module Validation {
  import opened Wrappers

  /** The exception ValidateText throws for a type it cannot parse. */
  datatype Exception = ApplicationException(message: string)

  /** Double.TryParse, Int32.TryParse and UInt32.TryParse, as predicates on
      the text: true when the parse succeeds. */
  datatype Parsers = Parsers(double: string -> bool, int32: string -> bool, uint32: string -> bool)

  /** The text is empty while a value is required. */
  predicate MissingRequired(text: string, required: bool)
  {
    text == "" && required
  }

  function LowerChar(c: char): char
  {
    if 'A' <= c <= 'Z' then (c as int - 'A' as int + 'a' as int) as char else c
  }

  /** String.ToLower of a type name, in a culture that lowers ASCII letters
      to ASCII letters. */
  function Lower(s: string): (r: string)
    ensures |r| == |s|
    ensures forall i :: 0 <= i < |s| ==> r[i] == LowerChar(s[i])
  {
    if s == [] then [] else [LowerChar(s[0])] + Lower(s[1..])
  }

  /** The lower-cased type names the switch of ValidateText handles. */
  predicate KnownType(lowered: string)
  {
    lowered in ["string", "double", "int32", "uint32"]
  }

  /** ValidateText(cControl, cType, bRequired): an empty text fails when a
      value is required; otherwise the lower-cased type name selects the
      parser. "string" accepts anything, the three number types accept what
      their TryParse accepts, and any other type name throws
      ApplicationException("Invalid type " + name) rather than returning. */
  function ValidateText(text: string, typeName: string, required: bool, parsers: Parsers): (r: Result<bool, Exception>)
    ensures MissingRequired(text, required) ==> r == Success(false)
    ensures r.Failure? <==> !MissingRequired(text, required) && !KnownType(Lower(typeName))
    ensures r.Failure? ==> r.error == ApplicationException("Invalid type " + typeName)
    ensures r == Success(true) ==> !MissingRequired(text, required)
    ensures !MissingRequired(text, required) ==>
      (Lower(typeName) == "string" ==> r == Success(true)) &&
      (Lower(typeName) == "double" ==> r == Success(parsers.double(text))) &&
      (Lower(typeName) == "int32" ==> r == Success(parsers.int32(text))) &&
      (Lower(typeName) == "uint32" ==> r == Success(parsers.uint32(text)))
  {
    if MissingRequired(text, required) then Success(false)
    else
      var t := Lower(typeName);
      if t == "string" then Success(true)
      else if t == "double" then Success(parsers.double(text))
      else if t == "int32" then Success(parsers.int32(text))
      else if t == "uint32" then Success(parsers.uint32(text))
      else Failure(ApplicationException("Invalid type " + typeName))
  }

  /** The string type accepts every text except a missing required value,
      whatever case its name is written in. */
  lemma ValidateTextString(text: string, typeName: string, required: bool, parsers: Parsers)
    requires Lower(typeName) == "string"
    ensures ValidateText(text, typeName, required, parsers) == Success(!MissingRequired(text, required))
  {
  }

  /** Leaving a numeric field optional does not make an empty text valid:
      the parser still sees the empty text, and the .NET parsers reject it. */
  lemma EmptyOptionalNumberFails(typeName: string, parsers: Parsers)
    requires Lower(typeName) in ["double", "int32", "uint32"]
    requires !parsers.double("") && !parsers.int32("") && !parsers.uint32("")
    ensures ValidateText("", typeName, false, parsers) == Success(false)
  {
  }

  /** ValidateText(cControl, cType, bRequired, iMaxLength): an empty text
      fails when required, a text longer than the limit fails, anything else
      passes. The type argument is never consulted. */
  function ValidateTextLength(text: string, required: bool, maxLength: int): (r: bool)
    ensures r <==> !MissingRequired(text, required) && |text| <= maxLength
  {
    if MissingRequired(text, required) then false
    else if |text| > maxLength then false
    else true
  }

  /** A text of exactly the maximum length passes, although the message of
      the failing case says "less than". */
  lemma ValidateTextLengthAtLimit(text: string, required: bool)
    requires text != "" || !required
    ensures ValidateTextLength(text, required, |text|)
    ensures !ValidateTextLength(text, required, |text| - 1)
  {
  }

  /** ValidateListControl, and ValidateComboBox (a ComboBox is a
      ListControl and the check is the same): fail only when a selection is
      required and SelectedIndex is -1. */
  function ValidateListControl(selectedIndex: int, required: bool): (r: bool)
    ensures r <==> !(required && selectedIndex == -1)
  {
    if required && selectedIndex == -1 then false else true
  }

  /** ValidateTreeView: fails only when a selection is required and there
      is no SelectedNode. */
  function ValidateTreeView(hasSelectedNode: bool, required: bool): (r: bool)
    ensures r <==> !required || hasSelectedNode
  {
    if required && !hasSelectedNode then false else true
  }

  /** The three-argument ValidateListView and ValidateCheckedListBox, over
      the number of selected (respectively checked) items: fail when an item
      is required and there is none, then fail in single-item mode unless
      there is exactly one. */
  function ValidateItemCount(count: nat, required: bool, singleItemOnly: bool): (r: bool)
    ensures r <==> !(required && count == 0) && !(singleItemOnly && count != 1)
  {
    if required && count == 0 then false
    else if singleItemOnly && count != 1 then false
    else true
  }

  /** The two-argument ValidateListView and ValidateCheckedListBox: they
      call the three-argument form with `true, false`, so their own
      `bRequired` is ignored and an item is always required. */
  function ValidateItemCountAnyRequired(count: nat, required: bool): (r: bool)
    ensures r <==> count > 0
  {
    ValidateItemCount(count, true, false)
  }

  /** With single-item mode on, the required flag makes no difference:
      exactly one selected (or checked) item passes. */
  lemma SingleItemOnlyMeansExactlyOne(count: nat, required: bool)
    ensures ValidateItemCount(count, required, true) <==> count == 1
  {
  }

  /** The character at `pos` is allowed in a phone number: a digit, or a
      '+' in one of the first two positions. */
  predicate PhoneCharOk(text: string, pos: int, isDigit: char -> bool)
    requires 0 <= pos < |text|
  {
    isDigit(text[pos]) || (text[pos] == '+' && (pos == 0 || pos == 1))
  }

  /** What ValidatePhoneNumberAddress accepts: the text passes the
      required/length rule and is either empty or made only of allowed
      characters without being one of the emergency numbers 999 and 911. */
  predicate PhoneNumberAccepted(text: string, required: bool, maxLength: int, isDigit: char -> bool)
  {
    ValidateTextLength(text, required, maxLength) &&
    (text == "" ||
     ((forall i :: 0 <= i < |text| ==> PhoneCharOk(text, i, isDigit)) && text != "999" && text != "911"))
  }

  /** ValidatePhoneNumberAddress(cControl, bRequired, iMaxLength): the
      required/length check, then an empty text passes, then every character
      is tested in a loop that accumulates `isValid`, then 999 and 911 are
      refused. */
  method ValidatePhoneNumberAddress(text: string, required: bool, maxLength: int, isDigit: char -> bool)
    returns (r: bool)
    ensures r == PhoneNumberAccepted(text, required, maxLength, isDigit)
  {
    if !ValidateTextLength(text, required, maxLength) {
      return false;
    }
    if text == "" {
      return true;
    }
    var isValid := true;
    for pos := 0 to |text|
      invariant isValid <==> forall i :: 0 <= i < pos ==> PhoneCharOk(text, i, isDigit)
    {
      var c := text[pos];
      assert PhoneCharOk(text, pos, isDigit) == (isDigit(c) || (c == '+' && (pos == 0 || pos == 1)));
      isValid := isValid && (isDigit(c) || (c == '+' && (pos == 0 || pos == 1)));
    }
    if !isValid {
      return false;
    }
    if text == "999" || text == "911" {
      return false;
    }
    return true;
  }

  /** The emergency numbers are refused whatever the other settings, even
      though they consist of digits only. */
  lemma EmergencyNumbersRefused(required: bool, maxLength: int, isDigit: char -> bool)
    ensures !PhoneNumberAccepted("999", required, maxLength, isDigit)
    ensures !PhoneNumberAccepted("911", required, maxLength, isDigit)
  {
  }

  /** A '+' after the second position always fails the character check. */
  lemma LatePlusRefused(text: string, pos: int, required: bool, maxLength: int, isDigit: char -> bool)
    requires 2 <= pos < |text| && text[pos] == '+' && !isDigit('+')
    ensures !PhoneNumberAccepted(text, required, maxLength, isDigit)
  {
    assert !PhoneCharOk(text, pos, isDigit);
  }

  /** Any other digit string within the limits passes; an optional field may
      be left empty. */
  lemma PhoneNumberDigitsAccepted(text: string, required: bool, maxLength: int, isDigit: char -> bool)
    requires |text| <= maxLength
    requires forall i :: 0 <= i < |text| ==> isDigit(text[i])
    requires text != "999" && text != "911"
    requires text != "" || !required
    ensures PhoneNumberAccepted(text, required, maxLength, isDigit)
  {
  }

  /** ValidateEmailAddress(cControl, bRequired, iMaxLength): the
      required/length check, then an empty text passes, then the regular
      expression (a parameter here) decides. */
  function ValidateEmailAddress(text: string, required: bool, maxLength: int, matches: string -> bool): (r: bool)
    ensures r <==> ValidateTextLength(text, required, maxLength) && (text == "" || matches(text))
  {
    if !ValidateTextLength(text, required, maxLength) then false
    else if text == "" then true
    else matches(text)
  }
}
