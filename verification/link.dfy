/**
 * A link between an output port and an input port as `link.rs` declares it:
 * its endpoints are fixed at creation, only the selection flag changes.
 */
module Link {
  /** Stroke width every new link starts with. */
  const DEFAULT_THICKNESS: nat := 4

  class Link {
    const id: nat
    const nodeFrom: nat
    const nodeTo: nat
    const portFrom: nat
    const portTo: nat
    const active: bool
    const thickness: nat
    var selected: bool

    /** `Link::new`: stores the endpoints and flags and starts with the default thickness. */
    constructor (id: nat, nodeFrom: nat, nodeTo: nat, portFrom: nat, portTo: nat, active: bool, selected: bool)
      ensures this.id == id && this.nodeFrom == nodeFrom && this.nodeTo == nodeTo
      ensures this.portFrom == portFrom && this.portTo == portTo
      ensures this.active == active && this.selected == selected
      ensures thickness == DEFAULT_THICKNESS
    {
      this.id := id;
      this.nodeFrom := nodeFrom;
      this.nodeTo := nodeTo;
      this.portFrom := portFrom;
      this.portTo := portTo;
      this.active := active;
      this.selected := selected;
      thickness := DEFAULT_THICKNESS;
    }

    /** `toggle_selected`: flips the flag; two toggles restore it. */
    method ToggleSelected()
      modifies this
      ensures selected == !old(selected)
    {
      SetSelected(!selected);
    }

    method SetSelected(selected: bool)
      modifies this
      ensures this.selected == selected
    {
      this.selected := selected;
    }
  }
}
