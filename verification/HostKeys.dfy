/** Trust on first use for the servers of the host list and the fingerprints of their keys:
  * nothing here has to be assumed about sizes or forbidden bytes. */
module HostKeys {
  import opened Bytes
  import opened Card
  import opened KnownHosts
  import opened Trust
  import Base64
  import Hosts
  import Text

  /** A host that can be saved and whose key lasts. */
  predicate Usable(h: Hosts.Host) {
    h.Good() && h.address[0] != Text.HASH
  }

  /** A connection to the host, which presents the key with this SHA-256 digest. */
  predicate Presents(e: Event, h: Hosts.Host, digest: bytes)
    requires |digest| == Base64.DIGEST_SIZE
  {
    e.Connect? && e.address == h.address && e.port == h.port && e.fingerprint == Base64.Fingerprint(digest)
  }

  /** Its parts always fit, and its key is one a file can hold. */
  lemma PartsFit(e: Event, h: Hosts.Host, digest: bytes)
    requires |digest| == Base64.DIGEST_SIZE && h.Good() && Presents(e, h, digest)
    ensures e.WellFormed() && Fits(e)
    ensures Lasting(e.address, e.port) <==> Usable(h)
  {
    Base64.FingerprintsIdentify(digest, digest);
  }

  /** Once a connection to a host is accepted, then until its key is forgotten connections to
    * it are accepted exactly when they present a key with the same digest. */
  lemma SameKeyAccepted(d: Disk, read: bool, ws: seq<World>, es: seq<Event>, ends: seq<Ending>, i: nat, j: nat,
                        h: Hosts.Host, first: bytes, later: bytes)
    requires IsRun(ws, es, ends) && Starts(d, ws[0], read) && i < j < |es| && Usable(h)
    requires |first| == Base64.DIGEST_SIZE && |later| == Base64.DIGEST_SIZE
    requires Presents(es[i], h, first) && Presents(es[j], h, later)
    requires Accepts(ws[i].memory, es[i]) && ends[i].Finished?
    requires Lookup(ws[i].memory, h.address, h.port).None? ==> |ws[i].memory| < KNOWN_MAX
    requires forall k :: 0 <= k <= i ==> Settles(ws[k], ends[k], ws[k + 1], h.address, h.port)
    requires NotForgotten(es, i, j, h.address, h.port) && LoadsDone(ends, i, j)
    ensures Accepts(ws[j].memory, es[j]) <==> later == first
  {
    PartsFit(es[i], h, first);
    AcceptedAgree(d, read, ws, es, ends, i, j);
    Base64.FingerprintsIdentify(first, later);
  }
}
