/** The option hash `main` fills from the command line and environment (docsearch.rb:259-304). */
module Config {
  import opened Wrappers

  /** An absent `topic` or `terms` is `None`; an option given with an empty argument is
      `Some("")`, which Ruby treats as set. */
  datatype Options = Options(
    inventory: bool,
    env: bool,
    pwd: bool,
    topic: Option<string>,
    terms: Option<string>,
    links: bool,
    cheats: bool,
    glossary: bool,
    json: bool,
    colored: bool,
    matchColored: bool)
}
