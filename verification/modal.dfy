/** The product detail modal of `openModal` and its download button. */
module Modal {

  import opened Optional
  import opened Text
  import opened Catalog

  const ReadyLabel: string := "Download"
  const BusyLabel: string := "Baixando..."

  /** The `.download-btn` element: its text, `disabled` flag, `downloading`
      class, and the link its `onclick` handler navigates to (none before the
      first successful `openModal`). */
  datatype Button = Button(text: string, disabled: bool, downloading: bool, onClick: Option<string>)

  /** The modal's slots, its `display` state and its button. */
  datatype View = View(
    visible: bool,
    title: string,
    size: string,
    version: string,
    compatibility: string,
    descriptionHtml: string,
    button: Button)

  /** The `TypeError`s `openModal` can throw: `find` found nothing, so the
      product is `undefined`; or the product has no `description`, whose
      `replace` is called unguarded. */
  datatype Fault = NoProduct | NoDescription

  datatype Opened = Opened(view: View, fault: Option<Fault>)

  datatype Clicked = Clicked(view: View, navigateTo: Option<string>)

  /** The three phases of the modal: hidden, shown with the button ready, and
      shown with a download under way. */
  datatype Phase = Closed | Ready | Downloading

  function PhaseOf(v: View): Phase {
    if !v.visible then Closed else if v.button.disabled then Downloading else Ready
  }

  /** `openModal(product)`. The four text slots are written first; then the
      description (which throws when it is missing), the button reset and
      handler, and finally the modal is shown. */
  function Open(v: View, product: Option<Product>): (r: Opened)
    ensures product.None? ==> r == Opened(v, Some(NoProduct))
    ensures product.Some? && product.value.description.None? ==>
      && r.fault == Some(NoDescription)
      && r.view == v.(title := product.value.title, size := product.value.size,
                      version := product.value.version, compatibility := product.value.compatibility)
    ensures product.Some? && product.value.description.Some? ==>
      && r.fault.None?
      && PhaseOf(r.view) == Ready
      && r.view.button == Button(ReadyLabel, false, false, Some(product.value.downloadLink))
      && r.view.title == product.value.title
      && r.view.size == product.value.size
      && r.view.version == product.value.version
      && r.view.compatibility == product.value.compatibility
      && r.view.descriptionHtml == BreakLines(product.value.description.value)
      && '\n' !in r.view.descriptionHtml
  {
    match product
    case None => Opened(v, Some(NoProduct))
    case Some(p) =>
      var written := v.(title := p.title, size := p.size, version := p.version, compatibility := p.compatibility);
      match p.description
      case None => Opened(written, Some(NoDescription))
      case Some(d) =>
        Opened(written.(descriptionHtml := BreakLines(d),
                        button := Button(ReadyLabel, false, false, Some(p.downloadLink)),
                        visible := true),
               None)
  }

  /** A click on the download button. Only a shown, enabled button with a
      handler reacts: it turns disabled, relabelled and marked `downloading`,
      and the page navigates to the product's `download_link`. */
  function ClickDownload(v: View): (r: Clicked)
    ensures r.navigateTo.Some? <==> PhaseOf(v) == Ready && v.button.onClick.Some?
    ensures r.navigateTo.Some? ==>
      && r.navigateTo == v.button.onClick
      && r.view == v.(button := Button(BusyLabel, true, true, v.button.onClick))
      && PhaseOf(r.view) == Downloading
    ensures r.navigateTo.None? ==> r.view == v
  {
    if v.visible && !v.button.disabled && v.button.onClick.Some? then
      Clicked(v.(button := v.button.(text := BusyLabel, disabled := true, downloading := true)), v.button.onClick)
    else Clicked(v, None)
  }

  /** The close control, or a window click whose target is the modal's own
      backdrop: hide the modal; the button keeps whatever state it had. */
  function Close(v: View): (r: View)
    ensures PhaseOf(r) == Closed
    ensures r.button == v.button
  {
    v.(visible := false)
  }

  /** A click anywhere in the window: only a click on the backdrop closes. */
  function WindowClick(v: View, onBackdrop: bool): (r: View)
    ensures onBackdrop ==> r == Close(v)
    ensures !onBackdrop ==> r == v
  {
    if onBackdrop then Close(v) else v
  }

  /** Opening forgets every earlier state: whatever the modal looked like
      before, a product with a description is shown the same way. */
  lemma OpenForgetsPriorState(v1: View, v2: View, p: Product)
    requires p.description.Some?
    ensures Open(v1, Some(p)) == Open(v2, Some(p))
  {
  }

  /** Open, then download: the button shows the busy state and the page goes
      to that product's link. */
  lemma OpenThenDownload(v: View, p: Product)
    requires p.description.Some?
    ensures ClickDownload(Open(v, Some(p)).view).navigateTo == Some(p.downloadLink)
    ensures ClickDownload(Open(v, Some(p)).view).view.button == Button(BusyLabel, true, true, Some(p.downloadLink))
  {
  }

  /** The download is terminal within one opening: a second click does
      nothing, and no click but a new `openModal` brings the modal back to
      the ready phase; a closed modal keeps its busy button. */
  lemma DownloadIsTerminal(v: View, onBackdrop: bool)
    requires PhaseOf(v) == Downloading
    ensures ClickDownload(v) == Clicked(v, None)
    ensures PhaseOf(WindowClick(v, onBackdrop)) != Ready
    ensures Close(v).button.disabled
    ensures ClickDownload(Close(v)).navigateTo.None?
  {
  }
}
