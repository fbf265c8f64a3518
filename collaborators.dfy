/** The code the conversion calls but that is not part of this model, as total
    functions handed in by the caller: the RFC 3987 IRI search, the
    HTML-to-text converter and the `pycountry` language lookup. */
module Collaborators {
  import opened Wrappers

  /** A `pycountry` language record; not every record has an ISO 639-1 code. */
  datatype IsoLanguage = IsoLanguage(alpha2: Option<string>)

  datatype Collaborators = Collaborators(
    /** `rfc3987.search(s)`: the start and end of the first match, if any. */
    searchIri: string -> Option<(int, int)>,
    /** `html_to_text(s)`: the character data of an HTML fragment. */
    htmlToText: string -> string,
    /** `pycountry.languages.get(name=...)`. */
    languageByName: string -> Option<IsoLanguage>)
}
