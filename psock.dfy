/** The psock a logger writes to, seen from the logger: a byte stream that
    records each successful raw write, and a resource that is released once.
    The outcome of each write comes from the operating system and is a
    parameter of the write; the outcome of the release is fixed when the
    psock is made. */
module PsockSink {
  import opened Status

  class Psock {
    /** The descriptor this psock owns. */
    const desc: int
    /** The status releasing this psock returns. */
    const releaseStatus: int

    /** The byte strings written so far, one per successful write. */
    ghost var written: seq<seq<char>>
    /** Set once the psock (and with it its descriptor) has been released. */
    ghost var released: bool
    /** Set once a logger has taken ownership of this psock. */
    ghost var owned: bool

    /** `psock_create_from_descriptor` on success: the psock owns `desc`. */
    constructor (desc: int, releaseStatus: int)
      ensures this.desc == desc && this.releaseStatus == releaseStatus
      ensures written == [] && !released && !owned
    {
      this.desc := desc;
      this.releaseStatus := releaseStatus;
      written := [];
      released := false;
      owned := false;
    }

    /** `psock_write_raw_data`: writes all of `data` in one call;
        `writeStatus` is the outcome the operating system gives this write. */
    method WriteRawData(data: seq<char>, writeStatus: int) returns (status: int)
      requires !released
      modifies this`written
      ensures status == writeStatus
      ensures written == if status == SUCCESS then old(written) + [data] else old(written)
    {
      status := writeStatus;
      if status == SUCCESS {
        written := written + [data];
      }
    }

    /** `resource_release` on the psock: closes its descriptor. A released
        psock cannot be released again. */
    method Release() returns (status: int)
      requires !released
      modifies this`released
      ensures released && status == releaseStatus
    {
      released := true;
      status := releaseStatus;
    }
  }
}
