/** The regular-expression facility the tagger borrows from Python's `re` module and
    pandas' `str.contains`, as an injected capability. The model never interprets a
    pattern: it only asks whether a pattern compiles and whether it finds a match. */
module Regex {

  /** `compiles(p)`: `p` is a well-formed pattern (otherwise `re.error` is raised).
      `searchIgnoringCase(p, text)`: `p` matches somewhere in `text` with case ignored,
      as `str.contains(p, case=False)` and `re.IGNORECASE` do everywhere in the tagger. */
  datatype Engine = Engine(compiles: string -> bool, searchIgnoringCase: (string, string) -> bool)

  /** DEFAULT_REGEX of tagger/settings.py: an empty group between word boundaries,
      the placeholder meaning "no pattern set yet". */
  const DefaultRegex: string := @"\b()\b"
}
