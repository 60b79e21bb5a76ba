/** The static table of HPACK, as the package lists it, and the constants of the package
    taken together. */
module HpackConstants {
  import opened Bits
  import opened Options
  import opened HpackTable
  import opened HpackHuffmanTables
  import opened HpackEncoder
  import opened HpackDecoder
  import opened HpackRun

  function Octets(s: string): seq<Byte> {
    seq(|s|, i requires 0 <= i < |s| => s[i] as int % 256)
  }

  function Pair(name: string, value: string): HeaderField {
    HeaderField(Octets(name), Octets(value), false)
  }

  /** The static table, by the index of each entry. */
  function StaticRow(i: nat): (string, string) {
    match i
    case 1 => (":authority", "")
    case 2 => (":method", "GET")
    case 3 => (":method", "POST")
    case 4 => (":path", "/")
    case 5 => (":path", "/index.html")
    case 6 => (":scheme", "http")
    case 7 => (":scheme", "https")
    case 8 => (":status", "200")
    case 9 => (":status", "204")
    case 10 => (":status", "206")
    case 11 => (":status", "304")
    case 12 => (":status", "400")
    case 13 => (":status", "404")
    case 14 => (":status", "500")
    case 15 => ("accept-charset", "")
    case 16 => ("accept-encoding", "gzip, deflate")
    case 17 => ("accept-language", "")
    case 18 => ("accept-ranges", "")
    case 19 => ("accept", "")
    case 20 => ("access-control-allow-origin", "")
    case 21 => ("age", "")
    case 22 => ("allow", "")
    case 23 => ("authorization", "")
    case 24 => ("cache-control", "")
    case 25 => ("content-disposition", "")
    case 26 => ("content-encoding", "")
    case 27 => ("content-language", "")
    case 28 => ("content-length", "")
    case 29 => ("content-location", "")
    case 30 => ("content-range", "")
    case 31 => ("content-type", "")
    case 32 => ("cookie", "")
    case 33 => ("date", "")
    case 34 => ("etag", "")
    case 35 => ("expect", "")
    case 36 => ("expires", "")
    case 37 => ("from", "")
    case 38 => ("host", "")
    case 39 => ("if-match", "")
    case 40 => ("if-modified-since", "")
    case 41 => ("if-none-match", "")
    case 42 => ("if-range", "")
    case 43 => ("if-unmodified-since", "")
    case 44 => ("last-modified", "")
    case 45 => ("link", "")
    case 46 => ("location", "")
    case 47 => ("max-forwards", "")
    case 48 => ("proxy-authenticate", "")
    case 49 => ("proxy-authorization", "")
    case 50 => ("range", "")
    case 51 => ("referer", "")
    case 52 => ("refresh", "")
    case 53 => ("retry-after", "")
    case 54 => ("server", "")
    case 55 => ("set-cookie", "")
    case 56 => ("strict-transport-security", "")
    case 57 => ("transfer-encoding", "")
    case 58 => ("user-agent", "")
    case 59 => ("vary", "")
    case 60 => ("via", "")
    case _ => ("www-authenticate", "")
  }

  const STATICS := 61

  function StaticTable(): (r: seq<HeaderField>)
    ensures |r| == STATICS
  {
    seq(STATICS, i requires 0 <= i < STATICS => Pair(StaticRow(i + 1).0, StaticRow(i + 1).1))
  }

  const STATIC_TABLE: seq<HeaderField> := StaticTable()

  const HPACK: Constants := Constants(HUFFMAN, STATIC_TABLE)

  /** The two tables of the package are usable: the code decodes, and the static table has
      61 entries. */
  lemma HpackUsable()
    ensures HPACK.Usable() && |HPACK.statics| == 61
  {
    HuffmanValid();
  }

  /** What a new encoder of the package puts out during a run. */
  ghost function PackageOutput(ops: seq<Op>): seq<Byte> {
    HpackUsable();
    AllOutput(HPACK, NewEncoder(), ops)
  }

  /** What a new decoder of the package makes of it, piece by piece. */
  ghost function PackageInput(max: nat, ps: seq<seq<Byte>>): Written {
    HpackUsable();
    WriteAll(HPACK, DecState([], max, max, true, 0), [], ps, [])
  }

  /** The round trip of a connection, for the tables of the package. */
  lemma PackageRoundTrip(max: nat, ops: seq<Op>, ps: seq<seq<Byte>>)
    requires INITIAL_TABLE_SIZE <= max < U32 && |ops| < MEMORY
    requires Permitted(HPACK, NewEncoder(), ops, max) && Concat(ps) == PackageOutput(ops)
    ensures var w := PackageInput(max, ps);
      w.emitted == Fields(ops) && w.err == None && w.saved == []
  {
    HpackUsable();
    ConnectionRoundTrip(HPACK, max, ops, ps);
  }
}
