/** The values that the containers hold. */
module Values {
  type Value(==, !new)
}
