/** The keepsake customisation page (src/pages/CustomizeProduct.tsx): the
    default inscription, the cover preselection, and the order `handleOrder`
    records. */
module Keepsake {
  import opened Common
  import opened Backend
  import Dashboard

  /** A `store_products` row. */
  datatype Product = Product(id: string, name: string, description: string, category: string, basePrice: real)

  const Heading := "In Loving Memory of "

  /** The first two lines of the inscription: the heading with the name, then
      the dates joined by an em dash. */
  function Header(name: string, birth: string, death: string): string {
    Heading + name + "\n" + birth + " \U{2014} " + death
  }

  /** The quoted tribute line, present when the tribute is non-null and
      non-empty. */
  function TributeLine(tribute: Option<string>): string {
    if tribute.Some? && tribute.value != "" then "\n\"" + tribute.value + "\"" else ""
  }

  /** Lines 92-93: the inscription proposed for a selected memorial. */
  function DefaultText(m: MemorialRow): string {
    Header(m.content.fullName, m.content.birthDate, m.content.deathDate) + TributeLine(m.content.tributeMessage)
  }

  /** The inscription opens with the heading and the name, carries the tribute
      exactly when there is a non-empty one, and the tribute can be read back
      from between its quotes. */
  lemma {:induction false} DefaultTextParts(m: MemorialRow)
    ensures var r := DefaultText(m);
      var h := Header(m.content.fullName, m.content.birthDate, m.content.deathDate);
      && StartsWith(r, Heading + m.content.fullName)
      && (|r| > |h| <==> m.content.tributeMessage.Some? && m.content.tributeMessage.value != "")
      && (|r| > |h| ==> r[|h| + 2..|r| - 1] == m.content.tributeMessage.value && r[|h|..|h| + 2] == "\n\"")
  {
    var r := DefaultText(m);
    var h := Header(m.content.fullName, m.content.birthDate, m.content.deathDate);
    var t := m.content.tributeMessage;
    assert h == (Heading + m.content.fullName) + ("\n" + m.content.birthDate + " \U{2014} " + m.content.deathDate);
    assert r[..|Heading + m.content.fullName|] == Heading + m.content.fullName;
    if t.Some? && t.value != "" {
      assert r == h + "\n\"" + t.value + "\"";
    }
  }

  /** All five shipping fields are filled in (line 100). */
  predicate ShippingComplete(s: Shipping) {
    s.name != "" && s.address != "" && s.city != "" && s.state != "" && s.zip != ""
  }

  /** Lines 106-121: the order record. Nothing selected becomes null. */
  function OrderFor(userId: string, product: Product, memorialId: Option<Id>, text: string, photo: string,
                    shipping: Shipping): (o: OrderRow)
    ensures o.quantity == 1 && o.unitPrice == product.basePrice && o.totalPrice == product.basePrice
    ensures o.memorialId == memorialId && o.userId == userId && o.productId == product.id
    ensures o.customPhotoUrl.None? <==> photo == ""
    ensures o.customPhotoUrl.Some? ==> o.customPhotoUrl.value == photo
  {
    OrderRow(userId, memorialId, product.id, product.name, text, NullIfEmpty(photo), 1,
             product.basePrice, product.basePrice, shipping)
  }

  /** The recorded total is the quantity times the unit price. */
  lemma {:induction false} OrderTotalIsConsistent(userId: string, product: Product, memorialId: Option<Id>, text: string,
                                                  photo: string, shipping: Shipping)
    ensures var o := OrderFor(userId, product, memorialId, text, photo, shipping);
      o.totalPrice == o.quantity as real * o.unitPrice
  {
    var o := OrderFor(userId, product, memorialId, text, photo, shipping);
    assert o.quantity as real == 1.0;
  }

  class CustomizePage {
    var product: Option<Product>
    var memorials: seq<MemorialRow>
    var photos: seq<PhotoRow>
    var selectedMemorial: Option<Id>
    var selectedPhoto: string
    var customText: string
    var submitting: bool
    var shipping: Shipping

    constructor ()
      ensures product == None && memorials == [] && photos == [] && selectedMemorial == None
      ensures selectedPhoto == "" && customText == "" && !submitting && shipping == Shipping("", "", "", "", "")
    {
      product, memorials, photos, selectedMemorial := None, [], [], None;
      selectedPhoto, customText, submitting := "", "", false;
      shipping := Shipping("", "", "", "", "");
    }

    /** The selection effect (lines 82-96): clearing the selection empties the
        photo list; selecting a listed memorial proposes its inscription and,
        when it has a non-empty cover URL, preselects that cover. A failed photo
        query yields the empty list. */
    method SelectMemorial(store: Store, selection: Option<Id>, photosFail: bool)
      requires store.Valid()
      modifies this, store
      ensures store.Valid() && store.State() == old(store.State())
      ensures selectedMemorial == selection
      ensures product == old(product) && memorials == old(memorials) && submitting == old(submitting)
      ensures shipping == old(shipping)
      ensures selection.None? ==>
        photos == [] && customText == old(customText) && selectedPhoto == old(selectedPhoto)
        && store.log == old(store.log)
      ensures selection.Some? ==>
        var mem := Dashboard.Find(memorials, selection.value);
        && store.log == old(store.log) + [PhotoQuery(selection.value)]
        && photos == (if photosFail then [] else PhotosOf(old(store.photos), selection.value))
        && customText == (if mem.Some? then DefaultText(mem.value) else old(customText))
        && selectedPhoto == (if mem.Some? && mem.value.content.coverImageUrl.GetOr("") != ""
                             then mem.value.content.coverImageUrl.value else old(selectedPhoto))
    {
      selectedMemorial := selection;
      if selection.None? {
        photos := [];
        return;
      }
      var p := store.SelectPhotos(selection.value, photosFail);
      photos := p.GetOr([]);
      var mem := Dashboard.Find(memorials, selection.value);
      if mem.Some? {
        customText := DefaultText(mem.value);
        if mem.value.content.coverImageUrl.GetOr("") != "" {
          selectedPhoto := mem.value.content.coverImageUrl.value;
        }
      }
    }

    /** `handleOrder`: without a product or a user nothing happens; with an
        empty shipping field nothing is inserted; otherwise the order is
        inserted and `submitting` is cleared whatever the outcome. Returns
        whether the order was placed. */
    method HandleOrder(store: Store, user: Option<string>, fails: bool) returns (placed: bool)
      requires store.Valid()
      modifies this, store
      ensures store.Valid()
      ensures product == old(product) && memorials == old(memorials) && photos == old(photos)
      ensures selectedMemorial == old(selectedMemorial) && selectedPhoto == old(selectedPhoto)
      ensures customText == old(customText) && shipping == old(shipping)
      ensures placed <==> product.Some? && user.Some? && ShippingComplete(shipping) && !fails
      ensures product.None? || user.None? || !ShippingComplete(shipping) ==>
        submitting == old(submitting) && store.State() == old(store.State()) && store.log == old(store.log)
      ensures product.Some? && user.Some? && ShippingComplete(shipping) ==>
        var order := OrderFor(user.value, product.value, selectedMemorial, customText, selectedPhoto, shipping);
        && !submitting
        && store.log == old(store.log) + [OrderInsert]
        && store.State() == (if fails then old(store.State()) else old(store.State()).(orders := old(store.orders) + [order]))
    {
      if product.None? || user.None? {
        return false;
      }
      if !ShippingComplete(shipping) {
        return false;
      }
      submitting := true;
      var order := OrderFor(user.value, product.value, selectedMemorial, customText, selectedPhoto, shipping);
      placed := store.InsertOrder(order, fails);
      submitting := false;
    }
  }
}
