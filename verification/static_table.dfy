/** The static table of RFC 7541, appendix A. */
module StaticTable {
  import opened Bits
  import opened HeaderTable

  // The octets of an ASCII text.
  function Octets(s: string): (b: Bytes)
    ensures |b| == |s|
  {
    seq(|s|, i requires 0 <= i < |s| => s[i] as int % 128)
  }

  function Entry(name: string, value: string): (f: Field)
    ensures |f.name| == |name|
  {
    Field(Octets(name), Octets(value), false)
  }

  predicate LongNames(t: seq<Field>) {
    forall i :: 0 <= i < |t| ==> |t[i].name| >= 3
  }

  function FirstEntries(): (t: seq<Field>)
    ensures |t| == 16 && LongNames(t)
  {
    [
      Entry(":authority", ""),
      Entry(":method", "GET"),
      Entry(":method", "POST"),
      Entry(":path", "/"),
      Entry(":path", "/index.html"),
      Entry(":scheme", "http"),
      Entry(":scheme", "https"),
      Entry(":status", "200"),
      Entry(":status", "204"),
      Entry(":status", "206"),
      Entry(":status", "304"),
      Entry(":status", "400"),
      Entry(":status", "404"),
      Entry(":status", "500"),
      Entry("accept-charset", ""),
      Entry("accept-encoding", "gzip, deflate")
    ]
  }

  function SecondEntries(): (t: seq<Field>)
    ensures |t| == 16 && LongNames(t)
  {
    [
      Entry("accept-language", ""),
      Entry("accept-ranges", ""),
      Entry("accept", ""),
      Entry("access-control-allow-origin", ""),
      Entry("age", ""),
      Entry("allow", ""),
      Entry("authorization", ""),
      Entry("cache-control", ""),
      Entry("content-disposition", ""),
      Entry("content-encoding", ""),
      Entry("content-language", ""),
      Entry("content-length", ""),
      Entry("content-location", ""),
      Entry("content-range", ""),
      Entry("content-type", ""),
      Entry("cookie", "")
    ]
  }

  function ThirdEntries(): (t: seq<Field>)
    ensures |t| == 16 && LongNames(t)
  {
    [
      Entry("date", ""),
      Entry("etag", ""),
      Entry("expect", ""),
      Entry("expires", ""),
      Entry("from", ""),
      Entry("host", ""),
      Entry("if-match", ""),
      Entry("if-modified-since", ""),
      Entry("if-none-match", ""),
      Entry("if-range", ""),
      Entry("if-unmodified-since", ""),
      Entry("last-modified", ""),
      Entry("link", ""),
      Entry("location", ""),
      Entry("max-forwards", ""),
      Entry("proxy-authenticate", "")
    ]
  }

  function FourthEntries(): (t: seq<Field>)
    ensures |t| == 13 && LongNames(t)
  {
    [
      Entry("proxy-authorization", ""),
      Entry("range", ""),
      Entry("referer", ""),
      Entry("refresh", ""),
      Entry("retry-after", ""),
      Entry("server", ""),
      Entry("set-cookie", ""),
      Entry("strict-transport-security", ""),
      Entry("transfer-encoding", ""),
      Entry("user-agent", ""),
      Entry("vary", ""),
      Entry("via", ""),
      Entry("www-authenticate", "")
    ]
  }

  // All names have at least three octets.
  function StaticEntries(): (t: seq<Field>)
    ensures |t| == 61 && LongNames(t)
  {
    FirstEntries() + SecondEntries() + ThirdEntries() + FourthEntries()
  }
}
