/** Points in time as the church-management client returns them. */
module Times {

  /** An instant; only its formatted text and equality matter to the pages. */
  type Instant = int
}
