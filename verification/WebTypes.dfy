/** What the stages of a web search share. */
module WebTypes {
  type Url = string
  type Question = string
}
