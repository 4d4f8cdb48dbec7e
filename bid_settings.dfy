/**
 * The products page of the admin app: the form each product is rendered with, the
 * `productUpdate` input its submission is turned into, and the response chosen from the
 * mutation's result.
 */
module BidSettings {
  import opened Wrappers

  /** Submitted form fields: a field that was not submitted is absent. */
  type FormData = map<string, string>

  /** `form.get(name)?.toString()`. */
  function FormGet(form: FormData, name: string): (r: Option<string>)
    ensures r.Some? <==> name in form
    ensures r.Some? ==> r.value == form[name]
  {
    if name in form then Some(form[name]) else None
  }

  /** One entry of the `metafields` list; `id` absent means the metafield is created, not referenced. */
  datatype MetafieldInput = MetafieldInput(
    id: Option<string>, namespace: string, key: string, valueType: string, value: string)

  /** The `input` variable of the `productUpdate` mutation. */
  datatype ProductInput = ProductInput(id: Option<string>, metafields: seq<MetafieldInput>)

  /** `...(ref && { id: ref })`: an id only for a reference that was submitted and is not empty. */
  function OptionalId(ref: Option<string>): Option<string> {
    if ref.Some? && ref.value != "" then ref else None
  }

  /** The payload the action sends for a submitted form. */
  function BuildProductInput(form: FormData): (r: ProductInput)
    ensures r.id == FormGet(form, "productId")
    ensures |r.metafields| == 2
    ensures var m := r.metafields[0];
      m.namespace == "custom" && m.key == "bidding_enabled" && m.valueType == "boolean"
      && (m.value == "true" || m.value == "false")
      && (m.value == "true" <==> "enabled" in form)
    ensures var m := r.metafields[1];
      m.namespace == "custom" && m.key == "min_price" && m.valueType == "number_decimal"
      && ("minPrice" in form && form["minPrice"] != "" ==> m.value == form["minPrice"])
      && (!("minPrice" in form && form["minPrice"] != "") ==> m.value == "0")
    ensures r.metafields[0].id.Some? <==> "bidding_enabledMetafieldId" in form && form["bidding_enabledMetafieldId"] != ""
    ensures r.metafields[0].id.Some? ==> r.metafields[0].id.value == form["bidding_enabledMetafieldId"]
    ensures r.metafields[1].id.Some? <==> "min_priceMetafieldId" in form && form["min_priceMetafieldId"] != ""
    ensures r.metafields[1].id.Some? ==> r.metafields[1].id.value == form["min_priceMetafieldId"]
  {
    var productId := FormGet(form, "productId");
    var enabled := if "enabled" in form then "true" else "false";
    var minPriceValue := match FormGet(form, "minPrice") case Some(v) => if v != "" then v else "0" case None => "0";
    var biddingEnabledId := FormGet(form, "bidding_enabledMetafieldId");
    var minPriceId := FormGet(form, "min_priceMetafieldId");
    ProductInput(productId, [
      MetafieldInput(OptionalId(biddingEnabledId), "custom", "bidding_enabled", "boolean", enabled),
      MetafieldInput(OptionalId(minPriceId), "custom", "min_price", "number_decimal", minPriceValue)
    ])
  }

  // ---------------------------------------------------------------- the mutation's result

  datatype UserError = UserError(field: Option<seq<string>>, message: string)

  datatype ProductUpdatePayload = ProductUpdatePayload(userErrors: seq<UserError>)

  datatype UpdateData = UpdateData(productUpdate: Option<ProductUpdatePayload>)

  /** The decoded body of the mutation's response. */
  datatype UpdateResponse = UpdateResponse(data: Option<UpdateData>)

  /** What the action returns to the browser. */
  datatype ActionResponse =
    | JsonErrors(errors: seq<UserError>, status: nat)
    | Redirect(location: string)
    | PlainText(body: string, status: nat)

  /**
   * Errors reported by the platform are returned with status 400, a missing `data` is treated
   * as success, and a `data` without `productUpdate` fails on the property access and ends in
   * the action's generic status 500 reply.
   */
  function ClassifyUpdate(result: UpdateResponse): (r: ActionResponse)
    ensures r.JsonErrors? <==>
      result.data.Some? && result.data.value.productUpdate.Some? && |result.data.value.productUpdate.value.userErrors| > 0
    ensures r.JsonErrors? ==> r.status == 400 && r.errors == result.data.value.productUpdate.value.userErrors
    ensures r.Redirect? <==>
      result.data.None? || (result.data.value.productUpdate.Some? && result.data.value.productUpdate.value.userErrors == [])
    ensures r.Redirect? ==> r.location == "/products"
    ensures r.PlainText? ==> r.status == 500
  {
    match result.data
    case None => Redirect("/products")
    case Some(data) =>
      match data.productUpdate
      case None => PlainText("Kuch ghalat hogaya", 500)
      case Some(payload) =>
        if |payload.userErrors| > 0 then JsonErrors(payload.userErrors, 400) else Redirect("/products")
  }

  // ---------------------------------------------------------------- the rendered form

  /** A metafield as the loader reads it. */
  datatype StoredMetafield = StoredMetafield(id: string, value: string)

  /** A product as the loader reads it, with its two bidding metafields when they exist. */
  datatype Product = Product(
    id: string, title: string, biddingEnabled: Option<StoredMetafield>, minPrice: Option<StoredMetafield>)

  /** The checkbox starts ticked exactly when the stored bidding value is the string "true". */
  function CheckboxDefault(product: Product): bool {
    product.biddingEnabled.Some? && product.biddingEnabled.value.value == "true"
  }

  /** `metafield?.id ?? ''`. */
  function StoredId(field: Option<StoredMetafield>): string {
    match field
    case None => ""
    case Some(m) => m.id
  }

  /** `metafield?.value || ''`. */
  function StoredValue(field: Option<StoredMetafield>): string {
    match field
    case None => ""
    case Some(m) => m.value
  }

  /**
   * The fields a browser submits for a product's form left as rendered: the three hidden
   * fields, the minimum price input, and the checkbox (with its default value "on") only when ticked.
   */
  function UnchangedSubmission(product: Product): FormData {
    var fields := map[
      "productId" := product.id,
      "bidding_enabledMetafieldId" := StoredId(product.biddingEnabled),
      "min_priceMetafieldId" := StoredId(product.minPrice),
      "minPrice" := StoredValue(product.minPrice)];
    if CheckboxDefault(product) then fields["enabled" := "on"] else fields
  }

  /**
   * Saving a product's form without changing it writes back what is stored: bidding stays on
   * exactly when it was "true", the minimum price keeps its value (or becomes "0" when it was
   * empty or missing), and each metafield that exists with an id is updated in place by that id.
   */
  lemma UnchangedSubmissionKeepsSettings(product: Product)
    ensures var r := BuildProductInput(UnchangedSubmission(product));
      r.id == Some(product.id)
      && (r.metafields[0].value == "true" <==> CheckboxDefault(product))
      && r.metafields[1].value == (if StoredValue(product.minPrice) == "" then "0" else product.minPrice.value.value)
      && r.metafields[0].id == (if StoredId(product.biddingEnabled) == "" then None else Some(product.biddingEnabled.value.id))
      && r.metafields[1].id == (if StoredId(product.minPrice) == "" then None else Some(product.minPrice.value.id))
  {
  }

  /** After saving an unchanged form, the form is rendered with the checkbox in the same state. */
  lemma CheckboxStable(product: Product, saved: StoredMetafield)
    requires saved.value == BuildProductInput(UnchangedSubmission(product)).metafields[0].value
    ensures CheckboxDefault(product.(biddingEnabled := Some(saved))) == CheckboxDefault(product)
  {
    UnchangedSubmissionKeepsSettings(product);
  }
}
