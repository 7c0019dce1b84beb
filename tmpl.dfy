/**
 * The values the message templates are rendered from, one variant per kind of notification,
 * and the accessors every variant offers the templates.
 */
module Tmpl {
  import opened Wrappers
  import opened Entries
  import opened Collector
  import opened SubmissionScraper

  /** `NewNotesContent`, `NewJournalsContent`, `NewSubmissionsContent` and `NewCommentsContent`. */
  datatype TemplateContent =
    | NewNotesContent(id: nat, title: string, userLink: string, userName: string, content: string,
                      link: string, rating: Rating)
    | NewJournalsContent(id: nat, title: string, user: Option<FurAffinityUser>, userLink: string,
                         userName: string, content: string, link: string, rating: Rating)
    | NewSubmissionsContent(id: nat, title: string, user: Option<FurAffinityUser>, userLink: string,
                            link: string, userName: string, description: string, thumbnailUrl: string,
                            fullViewUrl: string, rating: Rating, submissionType: SubmissionType)
    | NewCommentsContent(id: nat, onEntry: string, user: Option<FurAffinityUser>, userLink: string,
                         userName: string, content: string, link: string, entryType: EntryType, rating: Rating)
  {
    /** `EntryID`: the stored ID, 0 included. */
    function EntryID(): (r: nat)
      ensures r == id
    {
      id
    }

    /** `EntryTitle`: what the entry is about, which for a comment is the entry it is on. */
    function EntryTitle(): (r: string)
      ensures NewCommentsContent? ==> r == onEntry
      ensures !NewCommentsContent? ==> r == title
    {
      if NewCommentsContent? then onEntry else title
    }

    /** `EntryContent`: the text body, which for a submission is its description. */
    function EntryContent(): (r: string)
      ensures NewSubmissionsContent? ==> r == description
      ensures !NewSubmissionsContent? ==> r == content
    {
      if NewSubmissionsContent? then description else content
    }

    /** `EntryType`: fixed per variant, except that a comment carries its own. */
    function EntryType(): (r: EntryType)
      ensures NewNotesContent? ==> r == Note
      ensures NewJournalsContent? ==> r == Journal
      ensures NewSubmissionsContent? ==> r == Submission
      ensures NewCommentsContent? ==> r == entryType
    {
      match this
      case NewNotesContent(_, _, _, _, _, _, _) => Note
      case NewJournalsContent(_, _, _, _, _, _, _, _) => Journal
      case NewSubmissionsContent(_, _, _, _, _, _, _, _, _, _, _) => Submission
      case NewCommentsContent(_, _, _, _, _, _, _, t, _) => t
    }

    /** `ViewLink`: the stored link, unchanged. */
    function ViewLink(): (r: string)
      ensures r == link
    {
      link
    }

    /** `EntryRating`: the stored rating (General when the field was left at its zero value). */
    function EntryRating(): (r: Rating)
      ensures r == rating
    {
      rating
    }
  }

  /** Two contents of the same non-comment variant report the same type, whatever their fields. */
  lemma EntryTypeIgnoresFields(a: TemplateContent, b: TemplateContent)
    requires !a.NewCommentsContent?
    requires (a.NewNotesContent? && b.NewNotesContent?) || (a.NewJournalsContent? && b.NewJournalsContent?) ||
             (a.NewSubmissionsContent? && b.NewSubmissionsContent?)
    ensures a.EntryType() == b.EntryType()
  {
  }

  /** Every variant's type is a declared entry type unless a comment carries another. */
  lemma EntryTypeDeclared(c: TemplateContent)
    requires c.NewCommentsContent? ==> IsDeclared(c.entryType)
    ensures IsDeclared(c.EntryType()) && (c.EntryType() == Invalid ==> c.NewCommentsContent?)
  {
  }

  /** Fixtures in the style of the accessor tests: an empty note and an empty comment on a submission. */
  lemma EmptyFixtures()
    ensures NewNotesContent(0, "", "", "", "", "", General).EntryID() == 0
    ensures NewNotesContent(0, "", "", "", "", "", General).EntryRating() == General
    ensures NewCommentsContent(0, "", None, "", "", "", "", Submission, General).EntryType() == Submission
    ensures NewSubmissionsContent(999, "Simple Work", None, "", "http://example.com/submission/999", "",
                                  "A simple description", "", "", General, Unknown).EntryContent() == "A simple description"
  {
  }
}
