/** The public product page: the images its viewer steps through, the
    contact message built from a template, the WhatsApp number of the
    contact link, and the contact button. */
module ProductDetailPage {
  import opened Wrappers
  import opened Seqs
  import opened Text
  import opened Js
  import Helpers

  /** The images the viewer shows: the gallery when it has a positive
      length, otherwise the featured image alone. */
  function DisplayedImages(product: Record): (r: seq<Value>)
    ensures |r| >= 1
  {
    var g := Get(product, "galleryImages");
    if Truthy(g) && Length(g).Some? && Length(g).value > 0 then
      (if g.Arr? then g.elems else Characters(g.s))
    else [Get(product, "featuredImage")]
  }

  /** A non-empty gallery list is shown as it is; a missing, falsy or
      empty one falls back to the featured image. */
  lemma DisplayedImagesSpec(product: Record)
    ensures var g := Get(product, "galleryImages");
      && (g.Arr? && g.elems != [] ==> DisplayedImages(product) == g.elems)
      && (!Truthy(g) || g == Arr([]) ==> DisplayedImages(product) == [Get(product, "featuredImage")])
  {
  }

  /** The arrows render only when more than one image is shown; the
      gallery is then what is shown, so the length `nextImage` and
      `prevImage` step modulo is the number of images shown, and a slider
      over the shown images steps exactly as the page does. */
  lemma ArrowsStepOverShownImages(product: Record)
    requires |DisplayedImages(product)| > 1
    ensures var g := Get(product, "galleryImages");
      Truthy(g) && Length(g) == Some(|DisplayedImages(product)|)
  {
  }

  /** `getMessageTemplate(template)`: the first `[Product Title]` is
      replaced by the product's title, or by nothing when there is no
      product or no title. Only text has a `replace` method. */
  function MessageTemplate(template: Value, product: Option<Record>): (r: Result<string>)
    ensures r.Failure? <==> !template.Str?
  {
    var title := if product.Some? then Get(product.value, "title") else Undefined;
    var replacement := if Truthy(title) then ToStr(title) else "";
    if template.Str? then Success(ReplaceFirst(template.s, "[Product Title]", replacement))
    else Failure("template.replace is not a function")
  }

  /** A template without the placeholder is sent as written. With the
      placeholder first at `i`, the title (free of `$`) takes its place and
      the rest, later placeholders included, is kept; with no product the
      placeholder is just removed. */
  lemma MessageTemplateSpec(template: string, product: Option<Record>, i: int)
    ensures !Contains(template, "[Product Title]") ==> MessageTemplate(Str(template), product) == Success(template)
    ensures Occurs(template, "[Product Title]", i) && (forall j :: 0 <= j < i ==> !Occurs(template, "[Product Title]", j)) ==>
      && MessageTemplate(Str(template), None) == Success(template[..i] + template[i + 15..])
      && forall p: Record, t: string :: Get(p, "title") == Str(t) && '$' !in t ==>
           MessageTemplate(Str(template), Some(p)) == Success(template[..i] + t + template[i + 15..])
  {
    if Occurs(template, "[Product Title]", i) && (forall j :: 0 <= j < i ==> !Occurs(template, "[Product Title]", j)) {
      ReplaceFirstPlain(template, "[Product Title]", "", i);
      assert template[..i] + "" + template[i + 15..] == template[..i] + template[i + 15..];
      forall p: Record, t: string | Get(p, "title") == Str(t) && '$' !in t
        ensures MessageTemplate(Str(template), Some(p)) == Success(template[..i] + t + template[i + 15..])
      {
        ReplaceFirstPlain(template, "[Product Title]", t, i);
      }
    }
  }

  /** The number in the WhatsApp link: the configured number with every
      character other than a decimal digit removed. */
  function WhatsAppNumber(whatsapp: string): (r: string)
    ensures forall k :: 0 <= k < |r| ==> IsDigit(r[k])
    ensures IsSubsequence(r, whatsapp)
  {
    FilterIsSubsequence(whatsapp, IsDigit);
    forall k | 0 <= k < |Helpers.Digits(whatsapp)| ensures IsDigit(Helpers.Digits(whatsapp)[k]) {
      FilterMembership(whatsapp, IsDigit, Helpers.Digits(whatsapp)[k]);
    }
    Helpers.Digits(whatsapp)
  }

  /** Every digit of the configured number survives, in order, and
      stripping again changes nothing. */
  lemma WhatsAppNumberSpec(whatsapp: string, c: char)
    ensures c in WhatsAppNumber(whatsapp) <==> c in whatsapp && IsDigit(c)
    ensures WhatsAppNumber(WhatsAppNumber(whatsapp)) == WhatsAppNumber(whatsapp)
  {
    FilterMembership(whatsapp, IsDigit, c);
    FilterIdempotent(whatsapp, IsDigit);
  }

  /** A number written in the site's own `+91 AAAAA BBBBB` style links to
      91 followed by its ten digits. */
  lemma WhatsAppNumberOfFormatted(whatsapp: string)
    requires |Helpers.Digits(whatsapp)| == 10
    ensures WhatsAppNumber(Helpers.FormatPhone(whatsapp)) == "91" + Helpers.Digits(whatsapp)
  {
    var cleaned := Helpers.Digits(whatsapp);
    forall x | x in cleaned ensures IsDigit(x) {
      FilterMembership(whatsapp, IsDigit, x);
    }
    Helpers.DigitsOfFormatted(cleaned[..5], cleaned[5..]);
    assert cleaned[..5] + cleaned[5..] == cleaned;
  }

  /** The contact button: disabled and labelled Out of Stock exactly when
      the stock count is the number 0. */
  datatype ContactButton = ContactButton(disabled: bool, caption: string)

  function ContactButtonFor(product: Record): (r: ContactButton)
    ensures r.disabled <==> r.caption == "Out of Stock"
  {
    var zero := StrictEquals(Get(product, "stockCount"), Num(0));
    ContactButton(zero, if zero then "Out of Stock" else "Contact Store")
  }

  /** The button is disabled exactly when the stock line beside it reads
      Out of Stock; a stock of "0" as text or a missing stock leaves it
      enabled. */
  lemma ContactButtonMatchesStock(product: Record)
    ensures ContactButtonFor(product).disabled <==>
              Helpers.GetStockStatus(Get(product, "stockCount"), Get(product, "isLimitedStock")) == Helpers.OutOfStock
    ensures ContactButtonFor(product).disabled <==> Get(product, "stockCount") == Num(0)
  {
  }
}
