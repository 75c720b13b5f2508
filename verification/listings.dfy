/** The canonical internship record that every source adapter produces. */
module Listings {

  /** One internship listing; `scrapedAt` is the acquisition timestamp, kept as an uninterpreted string. */
  datatype Listing = Listing(
    title: string,
    company: string,
    location: string,
    link: string,
    duration: string,
    stipendRange: string,
    source: string,
    scrapedAt: string)

  /** The sentinel for a duration or stipend the source did not give. */
  const NotSpecified := "Not specified"
  /** The location recorded when a scraped card names none. */
  const DefaultLocation := "Remote"

  // The `source` tag of each adapter, and of the placeholder data.
  const InternshalaSource := "Internshala"
  const GithubSource := "GitHub Jobs"
  const IndeedSource := "Indeed"
  const LinkedInSource := "LinkedIn"
  const MockSource := "Mock Data"

  /** The identity key: listings with the same title and company are duplicates. */
  function Key(j: Listing): (string, string) {
    (j.title, j.company)
  }

  /** Title, company and link are all non-empty. */
  predicate IsComplete(j: Listing) {
    j.title != "" && j.company != "" && j.link != ""
  }
}
