/** The thumbnail modal controller: activating a thumbnail builds an overlay
    that shows its source either in an embedded document viewer (a PDF) or in
    an image, and registers a document-level keydown listener; the close
    button, a click on the backdrop and Escape each remove both again. */
module Modal {
  import opened Common

  const Shown := ""      // style.display restored to the stylesheet's value
  const Hidden := "none"
  const PdfSuffix := ".pdf"
  const EscapeKey := "Escape"

  /** toLowerCase on one character (ASCII letters only). */
  function LowerChar(c: char): char {
    if 'A' <= c <= 'Z' then (c as int + 32) as char else c
  }

  /** toLowerCase on a string. */
  function Lower(s: string): (r: string)
    ensures |r| == |s|
    ensures forall i :: 0 <= i < |s| ==> r[i] == LowerChar(s[i])
  {
    if s == [] then [] else [LowerChar(s[0])] + Lower(s[1..])
  }

  predicate EndsWith(s: string, suffix: string) {
    |suffix| <= |s| && s[|s| - |suffix|..] == suffix
  }

  /** The content test of the thumbnail handler: the lower-cased source ends in ".pdf". */
  predicate IsPdf(src: string) {
    EndsWith(Lower(src), PdfSuffix)
  }

  /** The embedded document viewer (iframe): its display style and its src. */
  datatype Frame = Frame(display: string, src: Option<string>)

  /** The image viewer: its display style, its src and its alt text. */
  datatype Picture = Picture(display: string, src: Option<string>, alt: string)

  /** The two viewers inside one overlay. */
  datatype Viewer = Viewer(frame: Frame, img: Picture)

  /** A viewer as the modal is created: both parts hidden, empty alt text. */
  const Blank := Viewer(Frame(Hidden, None), Picture(Hidden, None, ""))

  /** A `.cert-thumb` or `.art-thumb` element: its data-src attribute, and the
      alt text of the image inside it (None when it contains no image). */
  datatype Thumb = Thumb(dataSrc: Option<string>, innerAlt: Option<string>)

  /** A missing or empty data-src opens nothing. */
  predicate HasSource(t: Thumb) {
    t.dataSrc.Some? && t.dataSrc.value != ""
  }

  predicate FrameShown(v: Viewer) { v.frame.display == Shown }
  predicate ImageShown(v: Viewer) { v.img.display == Shown }

  /** What a freshly created modal shows for the source src. */
  function Present(src: string, innerAlt: Option<string>): Viewer {
    if IsPdf(src) then
      Viewer(Frame(Shown, Some(src)), Picture(Hidden, None, ""))
    else
      Viewer(Frame(Hidden, None),
             Picture(Shown, Some(src), if innerAlt.Some? && innerAlt.value != "" then innerAlt.value else ""))
  }

  /** The keys that activate a focused thumbnail like a click. */
  predicate ActivationKey(key: string) {
    key == "Enter" || key == " "
  }

  /** Where a click inside an overlay lands. */
  datatype ClickTarget = CloseButton | Backdrop | ModalBox

  /** The three ways to close a modal. */
  datatype CloseTrigger = ByCloseButton | ByBackdrop | ByEscape

  /** The part of the document the controller changes. Every overlay (the
      objects created by one activation) has an identity of its own; the keydown
      listener of that activation is known by the same identity. */
  datatype Doc = Doc(
    overlays: map<nat, Viewer>,  // the overlays attached to the body
    listeners: set<nat>,         // the overlays whose keydown listener is registered
    nextId: nat)                 // the identity the next activation gets

  /** No overlay without its listener, no listener without its overlay. */
  predicate ValidDoc(d: Doc) {
    d.listeners == d.overlays.Keys &&
    forall id :: id in d.overlays ==> id < d.nextId
  }

  /** The document after a click on thumbnail t. */
  function AfterThumbClick(d: Doc, t: Thumb): Doc {
    if !HasSource(t) then d
    else Doc(d.overlays[d.nextId := Present(t.dataSrc.value, t.innerAlt)],
             d.listeners + {d.nextId}, d.nextId + 1)
  }

  /** The document after a keydown on thumbnail t. */
  function AfterThumbKeydown(d: Doc, t: Thumb, key: string): Doc {
    if ActivationKey(key) then AfterThumbClick(d, t) else d
  }

  /** The document after the close function of overlay id has run. */
  function AfterClose(d: Doc, id: nat): Doc {
    Doc(d.overlays - {id}, d.listeners - {id}, d.nextId)
  }

  /** The document after a click inside overlay id: the close button's listener
      closes; the overlay's own listener closes only when the click's target is
      the overlay itself. */
  function AfterOverlayClick(d: Doc, id: nat, target: ClickTarget): Doc {
    match target
    case CloseButton => AfterClose(d, id)
    case Backdrop => AfterClose(d, id)
    case ModalBox => d
  }

  /** The document after a keydown reaches the document: every registered
      listener runs, and on Escape each one closes its own overlay. */
  function AfterKeydown(d: Doc, key: string): Doc {
    if key == EscapeKey then Doc(d.overlays - d.listeners, {}, d.nextId) else d
  }

  /** The document after the close path `how` is taken for overlay id. */
  function AfterCloseBy(d: Doc, id: nat, how: CloseTrigger): Doc {
    match how
    case ByCloseButton => AfterOverlayClick(d, id, CloseButton)
    case ByBackdrop => AfterOverlayClick(d, id, Backdrop)
    case ByEscape => AfterKeydown(d, EscapeKey)
  }

  /** Case-insensitive suffix test, stated without toLowerCase. */
  lemma {:induction false} IsPdfCaseInsensitive(src: string)
    ensures IsPdf(src) <==>
      |src| >= 4 && src[|src| - 4] == '.' &&
      (src[|src| - 3] == 'p' || src[|src| - 3] == 'P') &&
      (src[|src| - 2] == 'd' || src[|src| - 2] == 'D') &&
      (src[|src| - 1] == 'f' || src[|src| - 1] == 'F')
  {
    var n := |src|;
    var low := Lower(src);
    if n >= 4 {
      var tail := low[n - 4..];
      assert tail == [LowerChar(src[n - 4]), LowerChar(src[n - 3]), LowerChar(src[n - 2]), LowerChar(src[n - 1])];
      assert IsPdf(src) <==> tail == PdfSuffix;
    }
  }

  /** A lower-case PDF, an upper-case PDF and an upper-case image extension. */
  lemma ContentExamples()
    ensures IsPdf("cert.pdf") && !IsPdf("photo.PNG") && IsPdf("SCAN.PDF")
    ensures Present("SCAN.PDF", None).frame.src == Some("SCAN.PDF")
  {
    IsPdfCaseInsensitive("cert.pdf");
    IsPdfCaseInsensitive("photo.PNG");
    IsPdfCaseInsensitive("SCAN.PDF");
  }

  /** Exactly one viewer is shown: the document viewer for a PDF, with the
      source as written (not lower-cased), else the image, which copies the
      thumbnail's alt text only when that is present and non-empty. */
  lemma PresentShowsOneViewer(src: string, innerAlt: Option<string>)
    ensures var v := Present(src, innerAlt);
      (FrameShown(v) <==> IsPdf(src)) && (ImageShown(v) <==> !IsPdf(src)) &&
      (IsPdf(src) ==> v.frame.src == Some(src) && v.img.src == None && v.img.alt == "") &&
      (!IsPdf(src) ==> v.img.src == Some(src) && v.frame.src == None) &&
      (!IsPdf(src) && innerAlt.Some? && innerAlt.value != "" ==> v.img.alt == innerAlt.value) &&
      (!IsPdf(src) && (innerAlt.None? || innerAlt.value == "") ==> v.img.alt == "")
  {
  }

  /** A thumbnail without a source opens no modal. */
  lemma NoSourceNoModal(d: Doc, t: Thumb)
    requires !HasSource(t)
    ensures AfterThumbClick(d, t) == d
  {
  }

  /** Each activation adds exactly one new overlay and one listener and leaves
      the overlays already open as they were. */
  lemma ThumbClickOpensOne(d: Doc, t: Thumb)
    requires ValidDoc(d) && HasSource(t)
    ensures var d' := AfterThumbClick(d, t);
      ValidDoc(d') && d.nextId !in d.overlays &&
      d'.overlays.Keys == d.overlays.Keys + {d.nextId} &&
      d'.listeners == d.listeners + {d.nextId} &&
      |d'.overlays| == |d.overlays| + 1 && |d'.listeners| == |d.listeners| + 1 &&
      d'.overlays[d.nextId] == Present(t.dataSrc.value, t.innerAlt) &&
      forall id :: id in d.overlays ==> d'.overlays[id] == d.overlays[id]
  {
  }

  /** Repeated activations stack overlays: nothing limits them to one. */
  lemma RepeatedOpensStack(d: Doc, t: Thumb)
    requires ValidDoc(d) && HasSource(t)
    ensures |AfterThumbClick(AfterThumbClick(d, t), t).overlays| == |d.overlays| + 2
  {
    ThumbClickOpensOne(d, t);
    ThumbClickOpensOne(AfterThumbClick(d, t), t);
  }

  /** Every close path removes the overlay and its listener, and keeps the
      pairing of overlays and listeners. */
  lemma EveryCloseRemovesBoth(d: Doc, id: nat, how: CloseTrigger)
    requires ValidDoc(d) && id in d.overlays
    ensures var d' := AfterCloseBy(d, id, how);
      ValidDoc(d') && id !in d'.overlays && id !in d'.listeners
  {
  }

  /** Closing twice is closing once. */
  lemma CloseIdempotent(d: Doc, id: nat)
    ensures AfterClose(AfterClose(d, id), id) == AfterClose(d, id)
  {
  }

  /** Escape closes every open overlay and leaves no listener behind. */
  lemma EscapeClosesAll(d: Doc)
    requires ValidDoc(d)
    ensures AfterKeydown(d, EscapeKey).overlays == map[]
    ensures AfterKeydown(d, EscapeKey).listeners == {}
  {
    assert AfterKeydown(d, EscapeKey).overlays.Keys == {};
  }

  /** Once the only modal is closed, by any path, a later Escape does nothing. */
  lemma EscapeAfterCloseHasNoEffect(d: Doc, id: nat, how: CloseTrigger)
    requires ValidDoc(d) && d.overlays.Keys == {id}
    ensures var d' := AfterCloseBy(d, id, how);
      d'.overlays == map[] && d'.listeners == {} && AfterKeydown(d', EscapeKey) == d'
  {
    var d' := AfterCloseBy(d, id, how);
    assert d'.overlays.Keys == {};
  }

  /** Keys other than Escape leave the document unchanged. */
  lemma OtherKeysIgnored(d: Doc, key: string)
    requires key != EscapeKey
    ensures AfterKeydown(d, key) == d
  {
  }

  /** A click inside the modal box, off the close button, does not close. */
  lemma ModalBoxClickIgnored(d: Doc, id: nat)
    ensures AfterOverlayClick(d, id, ModalBox) == d
  {
  }

  /** Enter and Space on a thumbnail give the same document as a click; other
      keys do nothing. */
  lemma KeyboardLikeClick(d: Doc, t: Thumb, key: string)
    ensures key == "Enter" ==> AfterThumbKeydown(d, t, key) == AfterThumbClick(d, t)
    ensures key == " " ==> AfterThumbKeydown(d, t, key) == AfterThumbClick(d, t)
    ensures key != "Enter" && key != " " ==> AfterThumbKeydown(d, t, key) == d
  {
  }

  /** Every transition keeps each overlay paired with its listener. */
  lemma TransitionsKeepValid(d: Doc, t: Thumb, id: nat, target: ClickTarget, key: string)
    requires ValidDoc(d)
    ensures ValidDoc(AfterThumbClick(d, t))
    ensures ValidDoc(AfterThumbKeydown(d, t, key))
    ensures ValidDoc(AfterClose(d, id))
    ensures ValidDoc(AfterOverlayClick(d, id, target))
    ensures ValidDoc(AfterKeydown(d, key))
  {
    EscapeClosesAll(d);
  }

  /** The document, holding the overlays and the keydown listeners that the
      handlers add and remove in place. */
  class Page {
    var overlays: map<nat, Viewer>
    var listeners: set<nat>
    var nextId: nat

    function State(): Doc
      reads this
    {
      Doc(overlays, listeners, nextId)
    }

    ghost predicate Valid()
      reads this
    {
      ValidDoc(State())
    }

    constructor ()
      ensures Valid() && State() == Doc(map[], {}, 0)
    {
      overlays, listeners, nextId := map[], {}, 0;
    }

    /** createModal: a new overlay with both viewers hidden, attached to the
        body, and its keydown listener registered on the document. */
    method CreateModal() returns (id: nat)
      requires Valid()
      modifies this
      ensures Valid()
      ensures id == old(nextId) && id !in old(overlays)
      ensures overlays == old(overlays)[id := Blank]
      ensures listeners == old(listeners) + {id}
      ensures nextId == id + 1
    {
      id := nextId;
      nextId := nextId + 1;
      listeners := listeners + {id};
      overlays := overlays[id := Blank];
    }

    /** close: remove the overlay and deregister its keydown listener. */
    method Close(id: nat)
      requires Valid()
      modifies this
      ensures Valid()
      ensures State() == AfterClose(old(State()), id)
    {
      overlays := overlays - {id};
      listeners := listeners - {id};
    }

    /** onKey: the keydown listener of overlay id. */
    method OnKey(id: nat, key: string)
      requires Valid()
      modifies this
      ensures Valid()
      ensures State() == if key == EscapeKey then AfterClose(old(State()), id) else old(State())
    {
      if key == EscapeKey {
        Close(id);
      }
    }

    /** A keydown reaching the document: the listeners registered when the
        event arrives run in turn; one already removed is skipped. */
    method DispatchKeydown(key: string)
      requires Valid()
      modifies this
      ensures Valid()
      ensures State() == AfterKeydown(old(State()), key)
    {
      var pending := listeners;
      ghost var d0 := State();
      while pending != {}
        invariant Valid() && nextId == d0.nextId
        invariant pending <= d0.listeners
        invariant key == EscapeKey ==> listeners == pending
        invariant key == EscapeKey ==> overlays == d0.overlays - (d0.listeners - pending)
        invariant key != EscapeKey ==> State() == d0
        decreases pending
      {
        var id :| id in pending;
        if id in listeners {
          OnKey(id, key);
        }
        pending := pending - {id};
      }
    }

    /** A click inside overlay id, from the close button's listener and the
        overlay's own listener. */
    method OverlayClick(id: nat, target: ClickTarget)
      requires Valid()
      modifies this
      ensures Valid()
      ensures State() == AfterOverlayClick(old(State()), id, target)
    {
      if target == CloseButton {
        Close(id);
      }
      if target == Backdrop {
        Close(id);
      }
    }

    /** The click handler of thumbnail t. */
    method ThumbClick(t: Thumb)
      requires Valid()
      modifies this
      ensures Valid()
      ensures State() == AfterThumbClick(old(State()), t)
    {
      if t.dataSrc.None? || t.dataSrc.value == "" {
        return;
      }
      var src := t.dataSrc.value;
      var id := CreateModal();
      var v := overlays[id];
      var lower := Lower(src);
      if EndsWith(lower, PdfSuffix) {
        v := v.(frame := v.frame.(display := Shown));
        v := v.(img := v.img.(display := Hidden));
        v := v.(frame := v.frame.(src := Some(src)));
      } else {
        v := v.(img := v.img.(display := Shown));
        v := v.(frame := v.frame.(display := Hidden));
        v := v.(img := v.img.(src := Some(src)));
        if t.innerAlt.Some? && t.innerAlt.value != "" {
          v := v.(img := v.img.(alt := t.innerAlt.value));
        }
      }
      overlays := overlays[id := v];
    }

    /** The keydown handler of thumbnail t: Enter or Space act as a click. */
    method ThumbKeydown(t: Thumb, key: string)
      requires Valid()
      modifies this
      ensures Valid()
      ensures State() == AfterThumbKeydown(old(State()), t, key)
    {
      if key == "Enter" || key == " " {
        ThumbClick(t);
      }
    }
  }
}
