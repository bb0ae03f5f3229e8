# Portfolio page script: a Dafny model of its handler logic

The page script (`script.js`) wires four independent controllers to a static
portfolio page. This project models the decision and state logic inside their
event handlers, with the document reduced to plain data:

- **Accordion** (`accordion.dfy`, module `Accordion`). The element children of
  one parent are a sequence of `Element` records (class list, `aria-expanded`,
  `hidden`, inline `max-height`). The class `SiblingList` holds that sequence
  and its `Click` method is the toggle's click handler: the forward scan
  `FindPanel` (a `while` loop) finds the first following sibling marked
  `accordion-panel`, then the toggle's attribute and the panel's hidden flag and
  `panel-open` class are flipped together. `Click` is proved to produce
  `Toggled(old(elems), t)`, and the lemmas about `Toggled` state where the scan
  lands, the flip rule, agreement of the three parts, that two clicks restore
  the state and that no other sibling changes (no exclusive opening).
- **Gallery** (`gallery.dfy`, module `Gallery`). The per-click distance
  (first item width plus 12, or 300 without an item) and the signed delta of
  the prev and next buttons, as functions. `ClickDelta` takes the track as it
  is at the time of the click, so the distance is read afresh on every click
  and nothing is cached.
- **Theme** (`theme.dfy`, module `Theme`). Local storage is a
  `map<string, string>`. The class `ThemeController` holds the body's
  `light-theme` class, the checkbox and the storage; its constructor is the
  initial read and `OnChange` the change handler, with a `writeFails` flag for
  a `setItem` that throws. Lemmas state the stored-value round trip.
- **Thumbnail modal** (`modal.dfy`, module `Modal`). The content test
  (`IsPdf`, a suffix test on the lower-cased source) and the resulting viewer
  (`Present`) are functions. The document state is the datatype `Doc`: the
  attached overlays, the set of registered keydown listeners and the identity
  the next overlay receives. Transition functions (`AfterThumbClick`,
  `AfterClose`, `AfterOverlayClick`, `AfterKeydown`, `AfterThumbKeydown`)
  specify the class `Page`, whose methods (`CreateModal`, `Close`, `OnKey`,
  `DispatchKeydown`, `OverlayClick`, `ThumbClick`, `ThumbKeydown`) change the
  fields in place, as the script's `createModal`, `close`, `onKey` and
  thumbnail handlers do. `ValidDoc` (every overlay has its listener and every
  listener its overlay) is preserved by every transition; this is the
  guarantee that no keydown listener leaks across open and close cycles.

`common.dfy` (module `Common`) holds the `Option` datatype used for values the
DOM may return as null.

Points of the script's behaviour worth noting:

- The stored preference is read without a `try` (script.js:59), so an
  unreadable storage is not a handled case; only the write is guarded.
- Alt text is copied only when the thumbnail's inner image has a non-empty
  `alt` (script.js:145), not whenever an inner image exists.
- Repeated activations stack overlays (no single-instance invariant), and one
  Escape press runs every registered listener, so it closes all of them at
  once (`EscapeClosesAll`).

## Model

| member | source | states |
|---|---|---|
| Accordion.PanelFrom | script.js:10-13 | the scan's result is the first sibling at or after the start that carries `accordion-panel`, every sibling skipped before it is not a panel, and it is None exactly when no later sibling is a panel |
| Accordion.FindPanel | script.js:10-14 | the loop stops at the first panel after the toggle, having skipped only non-panels, or reports none when no following sibling is a panel; its answer equals `PanelOf` |
| Accordion.PanelFromStable | script.js:10-13 | the scan depends only on which siblings are panels, from the start index on |
| Accordion.FlipsAttribute | script.js:16-23 | an `aria-expanded` of exactly "true" becomes "false", every other value, absent included, becomes "true"; the open state is negated |
| Accordion.NoPanelNoChange | script.js:14 | when no following sibling is a panel the handler leaves every sibling unchanged |
| Accordion.ToggleLeavesConsistent | script.js:17-27 | after a click the attribute is "true" exactly when the panel is not hidden, exactly when it has `panel-open`, the inline height is cleared, and the panel found is still the same one |
| Accordion.ToggleTwiceRestores | script.js:16-27 | from a state whose attribute is "true" or "false" and agrees with the hidden flag and the class, two clicks give back the attribute, the hidden flag, the classes and every other sibling exactly; only the panel's inline height stays cleared |
| Accordion.ToggleTouchesOnlyPair | script.js:10-32 | a click changes only the toggle and its one panel; every other sibling, other panels included, keeps its state |
| Accordion.PanelOf | script.js:10-13 | the panel the toggle acts on: the scan started at the toggle's next sibling; its first-panel property is stated by `PanelFrom` and `FindPanel` |
| Accordion.SetExpanded | script.js:16-27 | writes one expanded state to the toggle's attribute and the panel's hidden flag and class, clearing the inline height; `ToggleLeavesConsistent` states that the three parts then agree |
| Accordion.Toggled | script.js:10-27 | the siblings after one click; `FlipsAttribute`, `NoPanelNoChange`, `ToggleLeavesConsistent`, `ToggleTwiceRestores` and `ToggleTouchesOnlyPair` state its properties |
| Accordion.SiblingList.Click | script.js:7-28 | the click handler leaves the siblings equal to `Toggled` of the old siblings |
| Gallery.ScrollDistance | script.js:43-46 | the distance is never below the 12-unit gap |
| Gallery.ClickDelta | script.js:41-53 | a click requests a scroll exactly when the gallery has a track and the clicked control exists |
| Gallery.DistanceRule | script.js:45 | the distance is the first item's width plus 12, or 300 when the track has no item |
| Gallery.PrevUndoesNext | script.js:48-53 | prev scrolls left and next scrolls right by the same distance, so the two deltas cancel |
| Gallery.NoTrackInert | script.js:41 | a gallery without a track requests no scroll for either control |
| Theme.LookupAfterWrite | script.js:59-74 | reading a key just written gives the value written |
| Theme.LookupOtherKey | script.js:59-74 | writing one key leaves the value read for every other key unchanged |
| Theme.Encode | script.js:74 | the written value is "light" or "dark" and reading it back selects the light theme exactly when `checked` was true |
| Theme.ReloadAfterWrite | script.js:59-74 | after a successful write, the initial read of the next page load gives the theme that was written |
| Theme.DarkByDefault | script.js:63-66 | with nothing stored the light theme is off |
| Theme.IsLightPreference | script.js:60 | only a stored "light" selects the light theme; `Encode`, `ReloadAfterWrite` and `DarkByDefault` state how it reads the values the script writes |
| Theme.ThemeController.Init | script.js:57-67 | the light class is on exactly when the stored value is "light", and the checkbox, when present, is checked exactly then |
| Theme.ThemeController.OnChange | script.js:69-78 | the light class follows `checked` whether or not the write fails; storage holds "light"/"dark" after a successful write and is unchanged after a failed one |
| Modal.IsPdf | script.js:134-135 | the content test: the lower-cased source ends in ".pdf"; `IsPdfCaseInsensitive` characterizes it without lower-casing |
| Modal.Present | script.js:135-146 | the viewers a new modal shows for a source; `PresentShowsOneViewer` states which is shown, with which source and alt |
| Modal.AfterThumbClick | script.js:130-146 | a click on a thumbnail with a source attaches one overlay showing `Present` and registers its listener; `NoSourceNoModal` and `ThumbClickOpensOne` state its effect |
| Modal.AfterClose | script.js:112-115 | close removes the overlay and its listener; `CloseIdempotent` and `EveryCloseRemovesBoth` state its effect |
| Modal.AfterOverlayClick | script.js:118-119 | the close button and the backdrop close, a click in the box does not; `ModalBoxClickIgnored` and `EveryCloseRemovesBoth` state it |
| Modal.AfterKeydown | script.js:116-120 | on Escape every registered listener closes its own overlay, other keys do nothing; `EscapeClosesAll`, `EscapeAfterCloseHasNoEffect` and `OtherKeysIgnored` state it |
| Modal.AfterThumbKeydown | script.js:148 | Enter and Space act as a click; `KeyboardLikeClick` states it |
| Modal.Lower | script.js:134 | lower-casing keeps the length and lower-cases each character |
| Modal.IsPdfCaseInsensitive | script.js:134-135 | the content test holds exactly when the source ends in a dot followed by p, d, f in either case |
| Modal.ContentExamples | script.js:134-142 | "cert.pdf" and "SCAN.PDF" are PDFs, "photo.PNG" is not, and the viewer is given the source as written rather than lower-cased |
| Modal.PresentShowsOneViewer | script.js:135-146 | exactly one viewer is shown: the document viewer with the original source for a PDF, else the image with that source, whose alt is the thumbnail's only when that alt is non-empty |
| Modal.NoSourceNoModal | script.js:131-132 | a missing or empty `data-src` leaves the document unchanged |
| Modal.ThumbClickOpensOne | script.js:120-146 | an activation with a source adds exactly one new overlay and one listener, keeps the open overlays as they were and keeps overlays and listeners paired |
| Modal.RepeatedOpensStack | script.js:129-133 | two activations leave two more overlays: nothing limits the page to one modal |
| Modal.EveryCloseRemovesBoth | script.js:112-120 | each of the three close paths removes the overlay and its keydown listener and keeps the pairing |
| Modal.CloseIdempotent | script.js:112-115 | running close a second time changes nothing further |
| Modal.EscapeClosesAll | script.js:116-120 | Escape leaves no overlay and no listener |
| Modal.EscapeAfterCloseHasNoEffect | script.js:112-120 | once the only modal is closed by any path, a later Escape leaves the document unchanged |
| Modal.OtherKeysIgnored | script.js:116 | keys other than Escape leave the document unchanged |
| Modal.ModalBoxClickIgnored | script.js:119 | a click whose target is inside the modal box, not the overlay, does not close |
| Modal.KeyboardLikeClick | script.js:148 | Enter and Space on a thumbnail give the same document as a click; other keys change nothing |
| Modal.TransitionsKeepValid | script.js:112-133 | every transition keeps each overlay paired with its registered listener |
| Modal.Page.CreateModal | script.js:82-126 | a new overlay with both viewers hidden and empty alt is attached under a fresh identity and its listener is registered |
| Modal.Page.Close | script.js:112-115 | removes the overlay and deregisters its listener, as `AfterClose` |
| Modal.Page.OnKey | script.js:116 | closes its own overlay on Escape and does nothing on any other key |
| Modal.Page.DispatchKeydown | script.js:114-120 | running every registered listener in turn gives `AfterKeydown` of the old document |
| Modal.Page.OverlayClick | script.js:118-119 | the close button and a backdrop click close the overlay, a click inside the box does not, as `AfterOverlayClick` |
| Modal.Page.ThumbClick | script.js:130-147 | the click handler's step-by-step viewer updates give `AfterThumbClick` of the old document |
| Modal.Page.ThumbKeydown | script.js:148 | Enter or Space run the click handler; the result is `AfterThumbKeydown` of the old document |

## Left out

- Rendering and DOM construction: element creation, `appendChild`, class names of the overlay structure, the `aria-label` and the close button's text (script.js:83-110) are not modelled; the overlay is reduced to its two viewers.
- Focus on the close button (script.js:124) is not modelled; keyboard activation of the focused close button is the browser's and is left out with it.
- Event dispatch machinery: `stopPropagation` (script.js:8), `preventDefault` for Space (script.js:148), `DOMContentLoaded` (script.js:2) and bubbling are not modelled; each handler is a state transition. Accordions nested in another parent are separate `SiblingList` objects, which a click on one does not modify.
- Registration of handlers by `querySelectorAll` (script.js:3, 35-39, 128) is not modelled; `SiblingList.Click` requires its toggle to carry `accordion-toggle`, and a `Thumb` stands for an element of one of the two thumbnail classes.
- `Gallery.ScrollDistance`: the width is a natural number; `getBoundingClientRect().width` is floating point and `Math.round` (script.js:45) is not modelled.
- Smooth scrolling (script.js:49, 52) is the platform's; only the requested delta is modelled, not the clamped scroll position.
- An exception from the unguarded `localStorage.getItem` (script.js:59) is not modelled; storage is a map that can always be read. A throwing `setItem` is the `writeFails` parameter.
- `Modal.Lower`: lower-cases ASCII `A`-`Z` only; the full Unicode case mapping of `toLowerCase` is not modelled.
- Class order: a class list is a set, so the position of `panel-open` in `className` after `remove` then `add` (script.js:21, 26) is not modelled; `ToggleTwiceRestores` restores the set of classes, not their order.
- `Gallery.ScrollDistance`'s width being an integer also means two fractional widths that `Math.round` maps to the same distance are not distinguished here.
- Loading of the iframe or image and PDF rendering are foreign to the script and not modelled.
- An activation's keydown listener is identified with its overlay's identity; the `close` function returned by `createModal` (script.js:125) is not used by the thumbnail handler and has no path of its own.
- `Modal.Page.DispatchKeydown` runs the listeners in an arbitrary order rather than registration order; the result does not depend on the order.
