/** The configuration constants of src/utils/mod.rs that the modelled queries use. */
module Utils {

  /** `MAX_QUERY_LIMIT`: the largest page size a listing query accepts. */
  const MaxQueryLimit: int := 100

  /** `DEFAULT_QUERY_LIMIT`: the page size when the caller gives none. */
  const DefaultQueryLimit: int := 100

  /** `HABIT_CREATION_DATE_AS_REFERENCE`: a habit's creation date anchors its recurrences. */
  const HabitCreationDateAsReference: bool := true
}
