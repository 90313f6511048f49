/**
 * The featured collections (src/components/CollectionsSection.js) and the modal
 * that shows one of them (src/components/NFTModal.js).
 *
 * CollectionsSection owns two state cells, selectedCollection (null or a
 * collection) and isModalOpen, set by openModal from a card's click and reset by
 * closeModal, which the modal receives as onClose.  The modal renders nothing
 * without a collection and its dialog only while open; a click bubbles from the
 * clicked element up through the dialog to the overlay, and the dialog's handler
 * stops it there.
 */
module Collections {
  import opened Wrappers

  datatype Nft = Nft(id: string, name: string, image: string, attributes: seq<string>, description: string)

  datatype Collection = Collection(
    id: string, name: string, description: string, verified: bool, image: string, nfts: seq<Nft>)

  /** The static collections table, in display order. */
  const Table: seq<Collection> := [
    Collection(
      "purple-ape", "Purple Ape Syndicate",
      "Exclusive collection of unique Purple Apes with legendary traits and streetwear aesthetics.",
      true, "/images/collection-1-header.png",
      [ Nft("purple-ape-1", "Cyber Punk Ape", "/images/collection1/collection-nft1.png",
            ["Rare", "Cyber", "Legendary"],
            "A futuristic ape with glowing cybernetic enhancements and streetwear style."),
        Nft("purple-ape-2", "Neon Street Ape", "/images/collection1/collection-nft2.png",
            ["Epic", "Neon", "Urban"],
            "Vibrant neon colors meet street culture in this stunning purple ape design."),
        Nft("purple-ape-3", "Mystic Ape Warrior", "/images/collection1/collection-nft3.png",
            ["Mythic", "Warrior", "Mystic"],
            "Ancient warrior spirit embodied in a modern purple ape avatar.") ]),
    Collection(
      "cyber-kittens", "Cyber Kittens Club",
      "Adorable gamer kittens with cutting-edge cyberpunk designs and gaming accessories.",
      true, "/images/collection-2-header.png",
      [ Nft("cyber-kitten-1", "Pixel Punk Kitten", "/images/collection2/collection-nft1.png",
            ["Pixel", "Punk", "Gamer"],
            "Retro pixel art meets cyberpunk in this adorable gaming kitten."),
        Nft("cyber-kitten-2", "Neon Hacker Cat", "/images/collection2/collection-nft2.png",
            ["Hacker", "Neon", "Tech"],
            "A sleek black cat with neon green accents and hacker aesthetic."),
        Nft("cyber-kitten-3", "Cosmic Space Cat", "/images/collection2/collection-nft3.png",
            ["Cosmic", "Space", "Future"],
            "Starry-eyed kitten ready for intergalactic adventures.") ]),
    Collection(
      "space-pandas-crew", "Space Pandas Crew",
      "Exclusive collection of cosmic explorers featuring retro astronaut pandas with legendary traits and sci-fi aesthetics.",
      true, "/images/collection3/collection-nft1-header.png",
      [ Nft("space-panda-1", "Retro Astronaut Panda", "/images/collection3/collection-nft1.png",
            ["Retro", "Astronaut", "Cosmic"],
            "A vintage space panda with retro astronaut gear and cosmic energy."),
        Nft("space-panda-2", "Neon Space Explorer", "/images/collection3/collection-nft2.png",
            ["Neon", "Explorer", "Sci-fi"],
            "Glowing neon panda ready for intergalactic adventures and discoveries."),
        Nft("space-panda-3", "Legendary Star Panda", "/images/collection3/collection-nft3.png",
            ["Legendary", "Star", "Heroic"],
            "Mythical space panda with legendary traits and heroic sci-fi aesthetics.") ])
  ]

  /** Three collections with distinct ids (the cards' React keys), each verified,
      each with three NFTs of distinct ids and three attributes apiece. */
  lemma TableShape()
    ensures |Table| == 3
    ensures forall i, j | 0 <= i < j < |Table| :: Table[i].id != Table[j].id
    ensures forall i | 0 <= i < |Table| :: Table[i].verified && |Table[i].nfts| == 3
    ensures forall i, a, b | 0 <= i < |Table| && 0 <= a < b < |Table[i].nfts| ::
      Table[i].nfts[a].id != Table[i].nfts[b].id
    ensures forall i, a | 0 <= i < |Table| && 0 <= a < |Table[i].nfts| ::
      |Table[i].nfts[a].attributes| == 3
  {
  }

  // ---------------------------------------------------------------- modal state

  datatype ModalState = ModalState(selected: Option<Collection>, isOpen: bool)

  /** useState(null), useState(false). */
  const Initial := ModalState(None, false)

  /** openModal(collection). */
  function Open(s: ModalState, c: Collection): ModalState {
    ModalState(Some(c), true)
  }

  /** closeModal(). */
  function Close(s: ModalState): ModalState {
    ModalState(None, false)
  }

  /** Opening a collection and closing the modal again restores the initial state,
      from any state. */
  lemma OpenThenClose(s: ModalState, c: Collection)
    ensures Close(Open(s, c)) == Initial
    ensures Open(s, c).isOpen && Open(s, c).selected == Some(c)
  {
  }

  // ---------------------------------------------------------------- the modal

  datatype ModalView =
    | Nothing                                      // `if (!collection) return null`
    | EmptyPresence                                // AnimatePresence with no child
    | Dialog(title: string, description: string, cards: seq<Nft>)

  function RenderModal(collection: Option<Collection>, isOpen: bool): (v: ModalView)
    ensures v.Nothing? <==> collection.None?
    ensures v.Dialog? <==> collection.Some? && isOpen
    ensures v.Dialog? ==> v.title == collection.value.name && v.cards == collection.value.nfts
  {
    match collection
    case None => Nothing
    case Some(c) => if isOpen then Dialog(c.name, c.description, c.nfts) else EmptyPresence
  }

  /** The clickable parts of the open modal. */
  datatype Element = Overlay | Content | CloseButton | DownloadButton | NftCard

  /** The path a click travels: the clicked element, then its ancestors up to the overlay. */
  function PathFrom(target: Element): (path: seq<Element>)
    ensures |path| > 0 && path[0] == target && path[|path| - 1] == Overlay
  {
    match target
    case Overlay => [Overlay]
    case Content => [Content, Overlay]
    case CloseButton => [CloseButton, Content, Overlay]
    case DownloadButton => [DownloadButton, Content, Overlay]
    case NftCard => [NftCard, Content, Overlay]
  }

  datatype Effect = CallOnClose | StopPropagation | OpenDownloadLink

  /** Each element's onClick, if it has one. */
  function Handler(e: Element): Option<Effect> {
    match e
    case Overlay => Some(CallOnClose)
    case Content => Some(StopPropagation)
    case CloseButton => Some(CallOnClose)
    case DownloadButton => Some(OpenDownloadLink)
    case NftCard => None
  }

  /** Bubbling: run each handler on the path, bottom up, until one stops propagation. */
  function Dispatch(path: seq<Element>): (effects: seq<Effect>)
    ensures |effects| <= |path|
    ensures forall i | 0 <= i < |effects| - 1 :: effects[i] != StopPropagation
  {
    if path == [] then []
    else
      var rest := if Handler(path[0]) == Some(StopPropagation) then [] else Dispatch(path[1..]);
      match Handler(path[0])
      case None => rest
      case Some(h) => [h] + rest
  }

  /** The overlay and the close button close the modal, each with one call to
      onClose; clicks anywhere inside the dialog never reach the overlay. */
  lemma ClickOutcome(t: Element)
    ensures (CallOnClose in Dispatch(PathFrom(t))) <==> (t == Overlay || t == CloseButton)
    ensures t == Overlay ==> Dispatch(PathFrom(t)) == [CallOnClose]
    ensures t == CloseButton ==> Dispatch(PathFrom(t)) == [CallOnClose, StopPropagation]
    ensures t != Overlay ==> StopPropagation in Dispatch(PathFrom(t))
    ensures (OpenDownloadLink in Dispatch(PathFrom(t))) <==> t == DownloadButton
  {
  }

  /** A click on the open modal: onClose is closeModal. */
  function Click(s: ModalState, t: Element): ModalState {
    if CallOnClose in Dispatch(PathFrom(t)) then Close(s) else s
  }

  datatype ModalEvent = CardClicked(collection: Collection) | ModalClicked(target: Element)

  /** A modal element can be clicked only while the dialog is rendered. */
  function Step(s: ModalState, ev: ModalEvent): ModalState {
    match ev
    case CardClicked(c) => Open(s, c)
    case ModalClicked(t) => if RenderModal(s.selected, s.isOpen).Dialog? then Click(s, t) else s
  }

  function Run(s: ModalState, evs: seq<ModalEvent>): ModalState
    decreases |evs|
  {
    if evs == [] then s else Run(Step(s, evs[0]), evs[1..])
  }

  /** The modal is open exactly when a collection is selected. */
  predicate Inv(s: ModalState) {
    s.isOpen <==> s.selected.Some?
  }

  lemma {:induction false} RunKeepsInv(s: ModalState, evs: seq<ModalEvent>)
    requires Inv(s)
    ensures Inv(Run(s, evs))
    decreases |evs|
  {
    if evs != [] {
      RunKeepsInv(Step(s, evs[0]), evs[1..]);
    }
  }

  /** In every reachable state an open modal has a collection, and the modal
      either renders nothing or shows the dialog of the selected collection. */
  lemma ReachableModal(evs: seq<ModalEvent>)
    ensures Run(Initial, evs).isOpen ==> Run(Initial, evs).selected.Some?
    ensures !RenderModal(Run(Initial, evs).selected, Run(Initial, evs).isOpen).EmptyPresence?
  {
    RunKeepsInv(Initial, evs);
  }

  /** When every card clicked is one of the table's, the modal only ever holds a
      collection of the table. */
  lemma {:induction false} SelectedFromTable(s: ModalState, evs: seq<ModalEvent>)
    requires s.selected.Some? ==> s.selected.value in Table
    requires forall i | 0 <= i < |evs| && evs[i].CardClicked? :: evs[i].collection in Table
    ensures Run(s, evs).selected.Some? ==> Run(s, evs).selected.value in Table
    decreases |evs|
  {
    if evs != [] {
      var t := Step(s, evs[0]);
      assert t.selected.Some? ==> t.selected.value in Table;
      SelectedFromTable(t, evs[1..]);
    }
  }

  class CollectionsSection {
    var selectedCollection: Option<Collection>
    var isModalOpen: bool

    ghost function State(): ModalState
      reads this
    {
      ModalState(selectedCollection, isModalOpen)
    }

    constructor ()
      ensures State() == Initial
    {
      selectedCollection := None;
      isModalOpen := false;
    }

    method OpenModal(collection: Collection)
      modifies this
      ensures State() == Open(old(State()), collection)
      ensures selectedCollection == Some(collection) && isModalOpen
    {
      selectedCollection := Some(collection);
      isModalOpen := true;
    }

    method CloseModal()
      modifies this
      ensures State() == Close(old(State()))
      ensures selectedCollection == None && !isModalOpen
    {
      isModalOpen := false;
      selectedCollection := None;
    }

    function ModalView(): ModalView
      reads this
    {
      RenderModal(selectedCollection, isModalOpen)
    }

    /** A click on an element of the rendered modal; onClose is closeModal. */
    method ClickModal(target: Element)
      modifies this
      ensures State() == Step(old(State()), ModalClicked(target))
      ensures old(ModalView()).Dialog? && (target == Overlay || target == CloseButton) ==>
        selectedCollection == None && !isModalOpen
      ensures !(target == Overlay || target == CloseButton) ==> State() == old(State())
    {
      ClickOutcome(target);
      if ModalView().Dialog? && CallOnClose in Dispatch(PathFrom(target)) {
        CloseModal();
      }
    }
  }
}
