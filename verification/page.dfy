/** The page as the extension sees it: issue rows of a pull-request list, each
    possibly holding a navigation link. Only the facts the script branches on
    are kept; DOM handles and presentation are not part of this model. */
module Page {

  /** A pull-request link (`.js-navigation-open`) as a work item: its `href`
      attribute, its text, and whether its immediate next sibling is a
      `.diffstat` element once collection has finished, which is what the
      scheduler's skip check (`$link.next('.diffstat')`) looks at. */
  datatype Link = Link(href: string, text: string, diffstatNext: bool)

  /** One `.js-issue-row.js-navigation-item` row. `hasLink` is false when the row
      has no `.js-navigation-open` element; an absent `href` attribute is
      represented by the empty string, which the source treats the same way.
      `hasCopyButton` says whether the row already holds a `.btn.ml-2` element,
      and `diffstatFollows` whether the link's immediate next sibling is a
      `.diffstat` element, both as found when the poller reads the row. */
  datatype Row = Row(hasLink: bool, href: string, linkText: string,
                     hasCopyButton: bool, diffstatFollows: bool)

  /** The link-validity guard: the link exists, and both its href and its text
      are non-empty. */
  predicate HasValidLink(r: Row)
  {
    r.hasLink && r.href != "" && r.linkText != ""
  }

  /** A row without a Copy button gets one inserted directly after its link,
      so the link's next sibling becomes that button; only a row that already
      had a button keeps the sibling it was found with. */
  predicate DiffstatNextAfterCollection(r: Row)
  {
    r.hasCopyButton && r.diffstatFollows
  }

  /** The work item a valid row contributes, as it stands after the poller has
      added the row's Copy button. */
  function LinkOf(r: Row): Link
  {
    Link(r.href, r.linkText, DiffstatNextAfterCollection(r))
  }
}
