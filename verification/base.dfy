/** The one entity of the engine: a request to rename `source` to `dest`. */
module Base {
  import opened Wrappers

  /** A path as the user typed it on one line of the listing. */
  type Path = string

  /** `tmp` is the staging name reserved for cycle breaking; nothing in the
      engine assigns it yet, so every rule carries `None`. */
  datatype Rename = Rename(source: Path, dest: Path, tmp: Option<Path>)
  {
    /** `Rename::new`: a fresh rule has no staging name. */
    static function New(source: Path, dest: Path): (r: Rename)
      ensures r.source == source && r.dest == dest
      ensures r.tmp == None
    {
      Rename(source, dest, None)
    }
  }

  function Sources(rules: seq<Rename>): seq<Path>
  {
    seq(|rules|, k requires 0 <= k < |rules| => rules[k].source)
  }

  function Dests(rules: seq<Rename>): seq<Path>
  {
    seq(|rules|, k requires 0 <= k < |rules| => rules[k].dest)
  }
}
