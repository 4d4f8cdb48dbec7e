# Offer-your-price: cart price transformer and bid settings, in Dafny

A model of the two pieces of logic in the "offer your price" Shopify app:

- **The cart transform function** `run` (`extensions/cart-transformer/src/run.js`). It walks the cart
  lines in order. A line whose bid attribute (`customBidPrice`) is missing, has no value or is the
  empty string is skipped. So is a line whose bid `parseFloat` reads as NaN. Every other line gets
  one `update` operation. That operation fixes the line's price per unit to the bid printed by
  `toFixed(2)`. The function checks neither whether bidding is enabled for the product, nor the
  merchant's minimum price, nor the sign of the bid. A negative bid such as `"-5"` is applied as
  `"-5.00"`, and `"Infinity"` is applied as `"Infinity"`. A design that enforces eligibility and the
  floor price inside the transformer would differ from this code; the model follows the code.
- **The bid settings action** of the admin products page (`app/routes/app.products.jsx`). It turns a
  submitted form into the `productUpdate` input with two metafields:
  - `custom.bidding_enabled` (boolean) is `"true"` exactly when the checkbox field was submitted.
  - `custom.min_price` (number_decimal) is the submitted price, or `"0"` when it is missing or empty.
  - Each metafield carries an `id` exactly when its reference field was submitted non-empty.

  The action also picks the response from the mutation's result. The page's own form is modelled
  too: the checkbox default and the fields a browser submits when nothing is changed.

Modules:

- `Wrappers` (`wrappers.dfy`): `Option`.
- `JsNumber` (`js_number.dfy`): `parseFloat` and `toFixed(2)` over exact decimals
  (`units × 10^-scale`), following ECMA-262. NaN is `None`.
- `CartTransform` (`cart_transform.dfy`): `Run` is a method with a `for` loop over the lines, as in
  the source. `Operations` is the function it is proved against. The lemmas about `Operations` give
  the per-line properties.
- `BidSettings` (`bid_settings.dfy`): the payload builder, the response classification and the form
  defaults, as functions.

`Run` is deterministic: its postcondition fixes the result as a function of the input lines alone.

## Model

| member | source | states |
|---|---|---|
| `CartTransform.Run` | extensions/cart-transformer/src/run.js:19-46 | the loop builds exactly `Operations(lines)`: the invariant ties the operations so far to the processed prefix of the lines |
| `CartTransform.BidValue` | extensions/cart-transformer/src/run.js:24 | the bid text of a line, absent when the attribute or its value is missing; no contract of its own, its use is stated by `MissingBidSkipped` and `ParsableBidApplied` |
| `CartTransform.LineOperation` | extensions/cart-transformer/src/run.js:24-42 | one pass of the loop body on one line; no contract of its own, its three outcomes (skipped without a bid, skipped on NaN, applied with toFixed(2)) are stated over the whole run by `MissingBidSkipped`, `UnparsableBidSkipped` and `ParsableBidApplied` |
| `CartTransform.Operations` | extensions/cart-transformer/src/run.js:20-45 | the operations the loop builds, defined line by line; no contract of its own, `Run` is proved equal to it and `OperationsTrace` describes it independently |
| `CartTransform.OperationsTrace` | extensions/cart-transformer/src/run.js:22-43 | the k-th operation is the contribution of line `Contributors[k]`; contributor indices strictly increase (same order, at most one per line); a line is a contributor iff it yields an operation |
| `CartTransform.OperationsAtMostLines` | extensions/cart-transformer/src/run.js:20-45 | never more operations than lines; an empty cart gives an empty operations list |
| `CartTransform.OperationIdsFromInput` | extensions/cart-transformer/src/run.js:33-35 | every operation's cartLineId is the id of some input line |
| `CartTransform.MissingBidSkipped` | extensions/cart-transformer/src/run.js:24-25 | a line with no attribute, no value or an empty bid contributes no operation |
| `CartTransform.UnparsableBidSkipped` | extensions/cart-transformer/src/run.js:27-28 | a line whose bid parses to NaN contributes no operation |
| `CartTransform.ParsableBidApplied` | extensions/cart-transformer/src/run.js:27-42 | a line with a non-empty parsable bid contributes exactly one operation, with no eligibility, floor or sign check, carrying its id and toFixed(2) of the bid |
| `CartTransform.FiniteBidAmount` | extensions/cart-transformer/src/run.js:31-38 | for a finite bid the amount is toFixed(2) of the bid (so it carries `FormatFixed2`'s sign, whole part with no leading zero, point and two digits), it ends in a point followed by exactly two digits, and it reads back as the bid rounded to hundredths |
| `CartTransform.OperationIdsDistinct` | extensions/cart-transformer/src/run.js:22-35 | when line ids are distinct, no two operations share a cartLineId |
| `CartTransform.DecimalBidExample` | extensions/cart-transformer/src/run.js:27-38 | a bid of "12.5" gives the amount "12.50" |
| `CartTransform.NegativeBidExample` | extensions/cart-transformer/src/run.js:27-38 | a bid of "-5" is applied as "-5.00" |
| `CartTransform.NonNumericBidExample` | extensions/cart-transformer/src/run.js:27-28 | a bid of "abc" yields no operation |
| `CartTransform.TrailingTextBidExample` | extensions/cart-transformer/src/run.js:27-38 | parseFloat reads the leading number only: "12abc" gives "12.00" |
| `CartTransform.InfinityBidExample` | extensions/cart-transformer/src/run.js:27-38 | "Infinity" is not NaN and is applied as the amount "Infinity" |
| `JsNumber.ParseFloat` | extensions/cart-transformer/src/run.js:27 | a finite parse needs a decimal digit in the input |
| `JsNumber.ParseFloatNaN` | extensions/cart-transformer/src/run.js:27-28 | parseFloat gives NaN exactly when, after the leading white space and at most one sign, the text starts with neither a digit, nor a point followed by a digit, nor `Infinity` |
| `JsNumber.DigitRunEnd` | extensions/cart-transformer/src/run.js:27 | the end of the longest run of digits at a position: everything before it is a digit, the character at it is not |
| `JsNumber.NatToDigits` | extensions/cart-transformer/src/run.js:31 | the decimal rendering of a natural number reads back as that number and has no leading zero |
| `JsNumber.FormatFixed2` | extensions/cart-transformer/src/run.js:31 | toFixed(2) of a finite value: a leading '-' exactly for values below zero, the whole part as "0" or digits with no leading zero, a point, and exactly two digits |
| `JsNumber.ToFixed2` | extensions/cart-transformer/src/run.js:31 | the amount starts with '-' exactly for a number below zero, `-Infinity` included; a finite number prints with a point and exactly two digits |
| `JsNumber.ParseToFixed2` | extensions/cart-transformer/src/run.js:27-31 | parseFloat of toFixed(2) of any number is that number rounded to hundredths; an infinity reads back as itself |
| `JsNumber.CentsNearestHalfUp` | extensions/cart-transformer/src/run.js:31 | the printed hundredths are within half a hundredth of the magnitude, a tie going to the larger |
| `JsNumber.CentsUnique` | extensions/cart-transformer/src/run.js:31 | that rounding rule admits only one count of hundredths, the one printed |
| `JsNumber.ExactAtTwoPlaces` | extensions/cart-transformer/src/run.js:31 | a value with at most two decimals is printed without rounding |
| `JsNumber.ParseFormatFixed2` | extensions/cart-transformer/src/run.js:27-31 | parseFloat of toFixed(2) of a value gives that value rounded to hundredths |
| `JsNumber.ParseFormatFixed2Exact` | extensions/cart-transformer/src/run.js:27-31 | for a value with at most two decimals, parseFloat of toFixed(2) gives the value back |
| `BidSettings.OptionalId` | app/routes/app.products.jsx:56-63 | `...(ref && { id: ref })`: an id only for a reference submitted non-empty; no contract of its own, stated per metafield by `BuildProductInput` |
| `BidSettings.BuildProductInput` | app/routes/app.products.jsx:47-69 | exactly two metafields: custom/bidding_enabled/boolean, then custom/min_price/number_decimal; "true" iff the enabled field is present, otherwise "false"; min price is the submitted text or "0" when missing or empty; an id iff its reference field is non-empty; product id as submitted |
| `BidSettings.ClassifyUpdate` | app/routes/app.products.jsx:84-96 | non-empty userErrors give status 400 with those errors unchanged; no data or no errors redirect to /products; data without productUpdate ends in the generic 500 |
| `BidSettings.CheckboxDefault` | app/routes/app.products.jsx:127-131 | the checkbox is pre-checked exactly when the stored bidding value is the string "true"; no contract of its own, `CheckboxStable` proves the default survives a save |
| `BidSettings.UnchangedSubmission` | app/routes/app.products.jsx:112-141 | the fields a browser submits for the rendered form left as it is: the three hidden fields, the price input, and `enabled` only when ticked; no contract of its own, `UnchangedSubmissionKeepsSettings` states what saving it writes |
| `BidSettings.UnchangedSubmissionKeepsSettings` | app/routes/app.products.jsx:113-141 | saving a product's form unchanged writes back its settings: enabled iff stored "true", the stored min price (or "0"), and each existing metafield referenced by its id |
| `BidSettings.CheckboxStable` | app/routes/app.products.jsx:127-131 | saving the form unchanged and rendering it again leaves the checkbox in the state it had |

## Left out

- Numbers are exact decimals, not IEEE-754 doubles. Binary rounding is not modelled (JavaScript prints `(1.005).toFixed(2)` as `"1.00"`; the model gives `"1.01"`). Neither is overflow to Infinity (`"1e400"`) or underflow to zero.
- `JsNumber.FormatFixed2`: does not model that `toFixed` prints magnitudes of 10^21 and above in exponential notation; the model prints them in fixed point.
- `JsNumber.ParseFloat`: negative zero is not distinguished from zero. `"-0"` prints `"0.00"` in both the model and JavaScript.
- The loader's product query, authentication and both GraphQL calls are network I/O against the platform. The mutation's decoded response is a parameter of `ClassifyUpdate`.
- A `GraphqlQueryError` thrown by the transport (the 500 with the platform's errors) and `console.error` logging are not modelled. The generic 500 is modelled only for the one failure inside the modelled code: `productUpdate` missing from the data.
- The page's layout and styling are not modelled. The form model keeps only the submitted fields.
- `BidSettings.UnchangedSubmissionKeepsSettings`: does not model the browser clearing a `type="number"` input whose stored value is not a valid number, nor repeated form fields (`FormData` is a map with one value per name).
- The unused `NO_CHANGES` constant of `run.js` is not modelled.
- The generated input and output types of the cart transform are reduced to the fields `run` reads and writes. The price adjustment nesting `price.adjustment.fixedPricePerUnit.amount` is flattened to `amount`.
