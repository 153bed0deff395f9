/**
 * The product detail modal of products.js (lines 16-57): a two-state
 * overlay that a card click fills and shows, and that the close buttons,
 * a click on the backdrop itself and the Escape key hide.
 */
module ProductModal {
  import opened Wrappers
  import Products

  /** The backdrop's display and aria-hidden attribute, and the fields shown inside it. */
  datatype Modal = Modal(
    shown: bool,        // display: flex (true) or none (false)
    ariaHidden: bool,   // aria-hidden="true"
    image: string,
    title: string,
    desc: string,
    price: string
  )

  /** Why `openModal` throws before writing anything. */
  datatype OpenError =
    | NoImage     // the card has no img, so `.src` is read from null
    | NoTitle     // no data-name and no h3, so `.innerText` is read from null

  /** Display and aria-hidden agree. */
  predicate Consistent(m: Modal)
  {
    m.shown <==> !m.ariaHidden
  }

  /**
   * `openModal` (lines 17-30): fill the fields from the card and show the
   * backdrop. The title is data-name, or the heading text when data-name is
   * missing or empty; description and price default to the empty string.
   */
  function OpenModal(m: Modal, card: Products.Card): (r: Result<Modal, OpenError>)
    ensures card.image.None? ==> r == Failure(NoImage)
    ensures card.image.Some? && Products.OrElse(card.name, []) == [] && card.heading.None? ==> r == Failure(NoTitle)
    ensures card.image.Some? && (Products.OrElse(card.name, []) != [] || card.heading.Some?) ==> r.Success?
    ensures r.Success? ==> card.image.Some? && r.value.image == card.image.value
    ensures r.Success? ==> r.value.shown && !r.value.ariaHidden
    ensures r.Success? && card.name.Some? && card.name.value != [] ==> r.value.title == card.name.value
    ensures r.Success? && (card.name.None? || card.name.value == []) ==>
      card.heading.Some? && r.value.title == card.heading.value
    ensures r.Success? ==> r.value.desc == Products.OrElse(card.desc, []) && r.value.price == Products.OrElse(card.price, [])
  {
    match card.image
    case None => Failure(NoImage)
    case Some(src) =>
      if Products.OrElse(card.name, []) == [] && card.heading.None? then Failure(NoTitle)
      else
        var title := if Products.OrElse(card.name, []) != [] then card.name.value else card.heading.value;
        Success(Modal(true, false, src, title, Products.OrElse(card.desc, []), Products.OrElse(card.price, [])))
  }

  /**
   * A click on a card or on its "Ver" button (lines 38-46): the modal after
   * `openModal`, or the modal untouched when `openModal` throws.
   */
  function ClickCard(m: Modal, card: Products.Card): (r: Modal)
    ensures OpenModal(m, card).Failure? ==> r == m
    ensures OpenModal(m, card).Success? ==> r == OpenModal(m, card).value
    ensures card.image.Some? && (Products.OrElse(card.name, []) != [] || card.heading.Some?) ==> r.shown && Consistent(r)
  {
    match OpenModal(m, card)
    case Success(filled) => filled
    case Failure(_) => m
  }

  /** `closeModal` (lines 32-35): hide the backdrop; the fields keep their content. */
  function CloseModal(m: Modal): (r: Modal)
    ensures !r.shown && r.ariaHidden
    ensures Consistent(r)
    ensures r.image == m.image && r.title == m.title && r.desc == m.desc && r.price == m.price
  {
    m.(shown := false, ariaHidden := true)
  }

  /** Where a click inside the backdrop landed. */
  datatype ClickTarget = Backdrop | Inside

  /** The backdrop click handler (lines 50-52): closes only on a click on the backdrop itself. */
  function BackdropClick(m: Modal, target: ClickTarget): (r: Modal)
    ensures target == Inside ==> r == m
    ensures target == Backdrop ==> r == CloseModal(m)
  {
    if target == Backdrop then CloseModal(m) else m
  }

  /** The document keydown handler (lines 55-57): Escape closes, any other key does nothing. */
  function KeyDown(m: Modal, key: string): (r: Modal)
    ensures key == "Escape" ==> r == CloseModal(m)
    ensures key != "Escape" ==> r == m
  {
    if key == "Escape" then CloseModal(m) else m
  }

  /** Closing is idempotent. */
  lemma CloseIdempotent(m: Modal)
    ensures CloseModal(CloseModal(m)) == CloseModal(m)
  {
  }

  /** What the open modal shows depends on the card alone, so opening twice equals opening once. */
  lemma OpenForgetsPrevious(m1: Modal, m2: Modal, card: Products.Card)
    ensures OpenModal(m1, card) == OpenModal(m2, card)
    ensures OpenModal(m1, card).Success? ==> ClickCard(ClickCard(m1, card), card) == ClickCard(m1, card)
  {
  }

  /** Every handler keeps a consistent modal consistent. */
  lemma HandlersKeepConsistent(m: Modal, card: Products.Card, target: ClickTarget, key: string)
    requires Consistent(m)
    ensures Consistent(ClickCard(m, card))
    ensures Consistent(CloseModal(m))
    ensures Consistent(BackdropClick(m, target))
    ensures Consistent(KeyDown(m, key))
  {
  }
}
