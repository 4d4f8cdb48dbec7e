/**
 * The cart transform function `run`: for every cart line that carries a shopper's bid, an
 * operation that fixes the line's price per unit to that bid printed with two decimals.
 *
 * The function checks neither whether bidding is enabled for the product nor the minimum
 * price nor the sign of the bid: every non-empty bid that parses as a number is applied.
 */
module CartTransform {
  import opened Wrappers
  import opened JsNumber

  /** A cart line attribute; only its value is read. */
  datatype Attribute = Attribute(value: Option<string>)

  /** A cart line: its id and the attribute the input query aliases as `customBidPrice`. */
  datatype CartLine = CartLine(id: string, customBidPrice: Option<Attribute>)

  datatype Cart = Cart(lines: seq<CartLine>)

  datatype RunInput = RunInput(cart: Cart)

  /** An `update` operation whose price adjustment is a fixed price per unit of `amount`. */
  datatype CartOperation = Update(cartLineId: string, amount: string)

  datatype FunctionRunResult = FunctionRunResult(operations: seq<CartOperation>)

  /** `line.customBidPrice?.value`. */
  function BidValue(line: CartLine): Option<string> {
    match line.customBidPrice
    case None => None
    case Some(attribute) => attribute.value
  }

  /** The operation one line contributes, if any. */
  function LineOperation(line: CartLine): Option<CartOperation> {
    match BidValue(line)
    case None => None
    case Some(bid) =>
      if bid == "" then None
      else
        match ParseFloat(bid)
        case None => None
        case Some(price) => Some(Update(line.id, ToFixed2(price)))
  }

  /** The operations of a run over `lines`, in line order. */
  function Operations(lines: seq<CartLine>): seq<CartOperation> {
    if lines == [] then []
    else
      var last := lines[|lines| - 1];
      Operations(lines[..|lines| - 1])
        + (match LineOperation(last) case None => [] case Some(op) => [op])
  }

  /** The indices of the lines that contribute an operation, in increasing order. */
  function Contributors(lines: seq<CartLine>): seq<nat> {
    if lines == [] then []
    else
      Contributors(lines[..|lines| - 1])
        + (if LineOperation(lines[|lines| - 1]).Some? then [|lines| - 1] else [])
  }

  /** `run`: walk the lines in order, skip those without a usable bid, emit one update per other line. */
  method Run(input: RunInput) returns (result: FunctionRunResult)
    ensures result.operations == Operations(input.cart.lines)
  {
    var lines := input.cart.lines;
    var operations: seq<CartOperation> := [];
    for i := 0 to |lines|
      invariant operations == Operations(lines[..i])
    {
      var line := lines[i];
      assert lines[..i + 1][..i] == lines[..i];
      var bidValue := BidValue(line);
      if bidValue.None? || bidValue.value == "" {
        continue;
      }
      var bidPrice := ParseFloat(bidValue.value);
      if bidPrice.None? {
        continue;
      }
      var finalAmount := ToFixed2(bidPrice.value);
      operations := operations + [Update(line.id, finalAmount)];
    }
    assert lines[..|lines|] == lines;
    return FunctionRunResult(operations);
  }

  // ---------------------------------------------------------------- properties of a run

  /** A line's operation, when there is one, names that line and carries its bid printed by `toFixed(2)`. */
  lemma LineOperationSpec(line: CartLine)
    ensures LineOperation(line).Some?
        <==> BidValue(line).Some? && BidValue(line).value != "" && ParseFloat(BidValue(line).value).Some?
    ensures LineOperation(line).Some? ==>
        LineOperation(line).value == Update(line.id, ToFixed2(ParseFloat(BidValue(line).value).value))
  {
  }

  /**
   * The operations are exactly the contributions of the contributing lines, taken in line
   * order: the k-th operation comes from line `Contributors(lines)[k]`, no line contributes
   * twice, and a line contributes precisely when its own operation exists.
   */
  lemma {:induction false} OperationsTrace(lines: seq<CartLine>)
    ensures |Contributors(lines)| == |Operations(lines)| <= |lines|
    ensures forall k :: 0 <= k < |Contributors(lines)| ==>
      Contributors(lines)[k] < |lines| && LineOperation(lines[Contributors(lines)[k]]) == Some(Operations(lines)[k])
    ensures forall a, b :: 0 <= a < b < |Contributors(lines)| ==> Contributors(lines)[a] < Contributors(lines)[b]
    ensures forall j :: 0 <= j < |lines| ==> (j in Contributors(lines) <==> LineOperation(lines[j]).Some?)
  {
    if lines != [] {
      OperationsTrace(lines[..|lines| - 1]);
      TraceMatchesStep(lines);
      TraceIncreasingStep(lines);
      TraceMembersStep(lines);
    }
  }

  /** Extending the cart by one line keeps each operation paired with the line it came from. */
  lemma TraceMatchesStep(lines: seq<CartLine>)
    requires lines != []
    requires var init := lines[..|lines| - 1];
      && |Contributors(init)| == |Operations(init)| <= |init|
      && forall k :: 0 <= k < |Contributors(init)| ==>
        Contributors(init)[k] < |init| && LineOperation(init[Contributors(init)[k]]) == Some(Operations(init)[k])
    ensures |Contributors(lines)| == |Operations(lines)| <= |lines|
    ensures forall k :: 0 <= k < |Contributors(lines)| ==>
      Contributors(lines)[k] < |lines| && LineOperation(lines[Contributors(lines)[k]]) == Some(Operations(lines)[k])
  {
    var init := lines[..|lines| - 1];
    forall k | 0 <= k < |Contributors(init)|
      ensures Contributors(lines)[k] == Contributors(init)[k] && Operations(lines)[k] == Operations(init)[k]
      ensures lines[Contributors(init)[k]] == init[Contributors(init)[k]]
    {
    }
  }

  /** Extending the cart by one line keeps the contributing indices increasing. */
  lemma TraceIncreasingStep(lines: seq<CartLine>)
    requires lines != []
    requires var init := lines[..|lines| - 1];
      && (forall k :: 0 <= k < |Contributors(init)| ==> Contributors(init)[k] < |init|)
      && forall a, b :: 0 <= a < b < |Contributors(init)| ==> Contributors(init)[a] < Contributors(init)[b]
    ensures forall a, b :: 0 <= a < b < |Contributors(lines)| ==> Contributors(lines)[a] < Contributors(lines)[b]
  {
  }

  /** Extending the cart by one line: a line contributes exactly when it yields an operation. */
  lemma TraceMembersStep(lines: seq<CartLine>)
    requires lines != []
    requires var init := lines[..|lines| - 1];
      && (forall k :: 0 <= k < |Contributors(init)| ==> Contributors(init)[k] < |init|)
      && forall j :: 0 <= j < |init| ==> (j in Contributors(init) <==> LineOperation(init[j]).Some?)
    ensures forall j :: 0 <= j < |lines| ==> (j in Contributors(lines) <==> LineOperation(lines[j]).Some?)
  {
    var init := lines[..|lines| - 1];
    forall j | 0 <= j < |init| ensures init[j] == lines[j] { }
  }

  /** There are never more operations than lines, and an empty cart yields none. */
  lemma OperationsAtMostLines(lines: seq<CartLine>)
    ensures |Operations(lines)| <= |lines|
    ensures lines == [] ==> Operations(lines) == []
  {
    OperationsTrace(lines);
  }

  /** Every operation's `cartLineId` is the id of an input line. */
  lemma OperationIdsFromInput(lines: seq<CartLine>)
    ensures forall op :: op in Operations(lines) ==> exists line :: line in lines && line.id == op.cartLineId
  {
    OperationsTrace(lines);
    forall op | op in Operations(lines) ensures exists line :: line in lines && line.id == op.cartLineId {
      var k :| 0 <= k < |Operations(lines)| && Operations(lines)[k] == op;
      var line := lines[Contributors(lines)[k]];
      LineOperationSpec(line);
    }
  }

  /** A line with no bid attribute, no value or the empty string as its bid gets no operation. */
  lemma MissingBidSkipped(lines: seq<CartLine>, j: nat)
    requires j < |lines| && (BidValue(lines[j]) == None || BidValue(lines[j]) == Some(""))
    ensures j !in Contributors(lines)
  {
    OperationsTrace(lines);
  }

  /** A line whose bid is NaN to `parseFloat` gets no operation. */
  lemma UnparsableBidSkipped(lines: seq<CartLine>, j: nat)
    requires j < |lines| && BidValue(lines[j]).Some? && ParseFloat(BidValue(lines[j]).value) == None
    ensures j !in Contributors(lines)
  {
    OperationsTrace(lines);
  }

  /**
   * A line with a non-empty bid that parses gets exactly one operation, whatever the bid's
   * sign or size: its id, and the bid printed by `toFixed(2)`.
   */
  lemma ParsableBidApplied(lines: seq<CartLine>, j: nat)
    requires j < |lines| && BidValue(lines[j]).Some? && BidValue(lines[j]).value != ""
    requires ParseFloat(BidValue(lines[j]).value).Some?
    ensures exists k :: (0 <= k < |Contributors(lines)| && k < |Operations(lines)| && Contributors(lines)[k] == j
      && Operations(lines)[k] == Update(lines[j].id, ToFixed2(ParseFloat(BidValue(lines[j]).value).value))
      && forall k' :: 0 <= k' < |Contributors(lines)| && Contributors(lines)[k'] == j ==> k' == k)
  {
    OperationsTrace(lines);
    LineOperationSpec(lines[j]);
    var k :| 0 <= k < |Contributors(lines)| && Contributors(lines)[k] == j;
  }

  /** A finite bid is applied as its value rounded to hundredths, printed with two decimals. */
  lemma FiniteBidAmount(line: CartLine, d: Decimal)
    requires BidValue(line).Some? && BidValue(line).value != "" && ParseFloat(BidValue(line).value) == Some(Finite(d))
    ensures LineOperation(line).Some?
    ensures LineOperation(line).value.amount == FormatFixed2(d)
    ensures var amount := LineOperation(line).value.amount;
      |amount| >= 4 && amount[|amount| - 3] == '.' && IsDigit(amount[|amount| - 2]) && IsDigit(amount[|amount| - 1])
      && ParseFloat(amount) == Some(Finite(Decimal(RoundedCents(d), 2)))
  {
    FiniteBidOperation(line, d);
    ParseFormatFixed2(d);
  }

  lemma FiniteBidOperation(line: CartLine, d: Decimal)
    requires BidValue(line).Some? && BidValue(line).value != "" && ParseFloat(BidValue(line).value) == Some(Finite(d))
    ensures LineOperation(line) == Some(Update(line.id, FormatFixed2(d)))
  {
  }

  /** When the input lines have distinct ids, so do the operations. */
  lemma OperationIdsDistinct(lines: seq<CartLine>)
    requires forall a, b :: 0 <= a < b < |lines| ==> lines[a].id != lines[b].id
    ensures forall a, b :: 0 <= a < b < |Operations(lines)| ==>
      Operations(lines)[a].cartLineId != Operations(lines)[b].cartLineId
  {
    OperationsTrace(lines);
    var ops, cs := Operations(lines), Contributors(lines);
    forall a, b | 0 <= a < b < |ops| ensures ops[a].cartLineId != ops[b].cartLineId {
      LineOperationSpec(lines[cs[a]]);
      LineOperationSpec(lines[cs[b]]);
    }
  }

  // ---------------------------------------------------------------- examples

  /** A cart of one line yields that line's operation, if it has one. */
  lemma OperationsOfOneLine(line: CartLine)
    ensures Operations([line]) == match LineOperation(line) case None => [] case Some(op) => [op]
  {
    assert [line][..0] == [];
  }

  /** A line with bid "12.5" is repriced to "12.50". */
  lemma DecimalBidExample()
    ensures Operations([CartLine("L1", Some(Attribute(Some("12.5"))))]) == [Update("L1", "12.50")]
  {
    ParseExampleDecimal();
    FormatExampleDecimal();
    OperationsOfOneLine(CartLine("L1", Some(Attribute(Some("12.5")))));
  }

  lemma ParseExampleDecimal()
    ensures ParseFloat("12.5") == Some(Finite(Decimal(125, 1)))
  {
    assert "12.5" == "12" + "." + "5";
    ParseUnsignedPointed("12", "5");
    assert DigitsValue("12" + "5") == 125 by {
      assert "12" + "5" == "125";
      assert "125"[..2] == "12" && "12"[..1] == "1" && "1"[..0] == "";
    }
    ParseUnsignedLeadingDigit("12.5", Decimal(125, 1));
    ParseFloatLeadingDigit("12.5");
  }

  lemma FormatExampleDecimal()
    ensures FormatFixed2(Decimal(125, 1)) == "12.50"
  {
    assert Pow10(1) == 10;
    assert CentsOf(125, 1) == 1250;
    assert FixedBody(1250) == "12.50" by {
      assert NatToDigits(1) == "1";
      assert NatToDigits(12) == "12";
      assert DigitChar(5) == '5' && DigitChar(0) == '0';
    }
  }

  /** A negative bid is applied as it is: "-5" becomes a price of "-5.00". */
  lemma NegativeBidExample()
    ensures Operations([CartLine("L1", Some(Attribute(Some("-5"))))]) == [Update("L1", "-5.00")]
  {
    ParseExampleNegative();
    FormatExampleNegative();
    OperationsOfOneLine(CartLine("L1", Some(Attribute(Some("-5")))));
  }

  lemma FormatExampleNegative()
    ensures FormatFixed2(Decimal(-5, 0)) == "-5.00"
  {
    assert Pow10(2) == 100;
    assert CentsOf(5, 0) == 500;
    assert FixedBody(500) == "5.00" by {
      assert NatToDigits(5) == "5";
      assert DigitChar(0) == '0';
    }
  }

  lemma ParseExampleNegative()
    ensures ParseFloat("-5") == Some(Finite(Decimal(-5, 0)))
  {
    assert "-5" == "-" + "5";
    assert "5" == "5" + "" && "5"[0..1] == "5" && "5"[1..1] == "";
    assert DigitRunEnd("5", 0) == 1 by { DigitRunEndIs("5", 0, 1); }
    assert DigitRunEnd("5", 1) == 1;
    assert DecimalOf("5", "", ExponentAt("5", 1)) == Decimal(5, 0) by {
      assert DigitsValue("5") == 5 by { assert "5"[..0] == ""; }
    }
    ParseUnsignedLeadingDigit("5", Decimal(5, 0));
    ParseFloatNegative("5");
  }

  /** A bid with no leading number, such as "abc", leaves the line's price alone. */
  lemma NonNumericBidExample()
    ensures Operations([CartLine("L1", Some(Attribute(Some("abc"))))]) == []
  {
    assert ParseFloat("abc") == None by {
      assert DigitRunEnd("abc", 0) == 0;
    }
    OperationsOfOneLine(CartLine("L1", Some(Attribute(Some("abc")))));
  }

  /** Only the leading number of a bid counts: "12abc" becomes "12.00". */
  lemma TrailingTextBidExample()
    ensures Operations([CartLine("L1", Some(Attribute(Some("12abc"))))]) == [Update("L1", "12.00")]
  {
    ParseExampleTrailingText();
    FormatExampleWhole();
    OperationsOfOneLine(CartLine("L1", Some(Attribute(Some("12abc")))));
  }

  lemma FormatExampleWhole()
    ensures FormatFixed2(Decimal(12, 0)) == "12.00"
  {
    assert Pow10(2) == 100;
    assert CentsOf(12, 0) == 1200;
    assert FixedBody(1200) == "12.00" by {
      assert NatToDigits(1) == "1";
      assert NatToDigits(12) == "12";
      assert DigitChar(0) == '0';
    }
  }

  lemma ParseExampleTrailingText()
    ensures ParseFloat("12abc") == Some(Finite(Decimal(12, 0)))
  {
    var b := "12abc";
    assert DigitRunEnd(b, 0) == 2 by { DigitRunEndIs(b, 0, 2); }
    assert DigitRunEnd(b, 2) == 2;
    assert ExponentAt(b, 2) == 0;
    assert b[0..2] == "12" && b[2..2] == "";
    assert DecimalOf("12", "", 0) == Decimal(12, 0) by {
      assert "12" + "" == "12";
      assert DigitsValue("12") == 12 by { assert "12"[..1] == "1" && "1"[..0] == ""; }
    }
    ParseUnsignedLeadingDigit(b, Decimal(12, 0));
    ParseFloatLeadingDigit(b);
  }

  /** "Infinity" parses as a number, so the line is repriced to the string "Infinity". */
  lemma InfinityBidExample()
    ensures Operations([CartLine("L1", Some(Attribute(Some("Infinity"))))]) == [Update("L1", "Infinity")]
  {
    assert ParseFloat("Infinity") == Some(Infinity(false)) by {
      assert "Infinity"[..8] == "Infinity";
    }
    OperationsOfOneLine(CartLine("L1", Some(Attribute(Some("Infinity")))));
  }
}
