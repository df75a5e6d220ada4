/**
 * The diagnostic error value (`src/libexception.cpp`, fields and their
 * defaults in `include/libexception.hpp`). An `Exception` keeps a borrowed
 * message, an owned copy of its location and an owned buffer with the
 * combined text `message` or `message + " in " + location`, which
 * `set_location` rebuilds every time the location is set.
 */
module LibException {
  import opened CStrings

  /** The default member initializer of `message`. */
  const DefaultMessage: string := "Exception"

  /** What `what()` shows for a message and a location. */
  function Combined(message: string, location: string): (r: string)
    ensures |r| == if location == "" then |message| else |message| + 4 + |location|
    ensures r[..|message|] == message
    ensures IsCString(message) && IsCString(location) ==> IsCString(r)
  {
    if location == "" then message else message + " in " + location
  }

  /** For a fixed message the combined text determines the location. */
  lemma {:induction false} CombinedDeterminesLocation(message: string, l1: string, l2: string)
    requires Combined(message, l1) == Combined(message, l2)
    ensures l1 == l2
  {
    var c := Combined(message, l1);
    if l1 != "" && l2 != "" {
      assert l1 == c[|message| + 4..];
      assert l2 == c[|message| + 4..];
    }
  }

  class Exception {
    const message: string
    var location: array?<char>
    var messageLocation: array?<char>

    /**
     * Two separate buffers, each holding exactly its C string, the combined
     * one agreeing with message and location.
     */
    ghost predicate Valid()
      reads this, location, messageLocation
    {
      && IsCString(message)
      && location != null && messageLocation != null && location != messageLocation
      && Exact(location) && Exact(messageLocation)
      && CStr(messageLocation[..]) == Combined(message, CStr(location[..]))
    }

    /** `what()`: the combined text, which always agrees with the message and `where()`. */
    function What(): (text: string)
      reads this, location, messageLocation
      requires Valid()
      ensures text == Combined(message, Where())
    {
      CStr(messageLocation[..])
    }

    /** `where()`: the location, which fills its buffer up to the terminator. */
    function Where(): (text: string)
      reads this, location, messageLocation
      requires Valid()
      ensures IsCString(text) && |text| + 1 == location.Length
    {
      CStr(location[..])
    }

    /**
     * `set_location`: a fresh buffer for the location, then a fresh buffer
     * for the combined text, sized for it and its terminator. The old
     * buffers are released (not modelled); the message is not touched.
     */
    method SetLocation(l: string)
      requires IsCString(message) && IsCString(l)
      modifies this
      ensures Valid()
      ensures Where() == l && What() == Combined(message, l)
      ensures messageLocation.Length == if l == "" then |message| + 1 else |message| + |l| + 5
      ensures fresh(location) && fresh(messageLocation)
    {
      location := new char[|l| + 1];
      StrCpy(location, l);
      var combined: array<char>;
      if location[0] == '\0' {
        // strcmp(location, "") == 0
        combined := new char[|message| + 1];
        StrCpy(combined, message);
      } else {
        combined := new char[|message| + |l| + 5];
        StrCpy(combined, message);
        StrCat(combined, " in ");
        StrCat(combined, CStr(location[..]));
      }
      messageLocation := combined;
    }

    /** `Exception(m, l)`: the protected constructor the concrete errors use. */
    constructor WithMessage(m: string, l: string)
      requires IsCString(m) && IsCString(l)
      ensures Valid()
      ensures message == m && Where() == l && What() == Combined(m, l)
    {
      message := m;
      new;
      SetLocation(l);
    }

    /** `Exception(const Exception&)`: only the location is copied; the message is the default. */
    constructor Copy(other: Exception)
      requires other.Valid()
      ensures Valid()
      ensures message == DefaultMessage && Where() == other.Where()
      ensures What() == Combined(DefaultMessage, other.Where())
    {
      message := DefaultMessage;
      new;
      SetLocation(other.Where());
    }

    /** `Exception()`: default message, empty location. */
    constructor Default()
      ensures Valid()
      ensures message == DefaultMessage && Where() == "" && What() == DefaultMessage
    {
      message := DefaultMessage;
      new;
      SetLocation("");
    }

    /** `Exception(l)`: default message at location `l`. */
    constructor At(l: string)
      requires IsCString(l)
      ensures Valid()
      ensures message == DefaultMessage && Where() == l && What() == Combined(DefaultMessage, l)
    {
      message := DefaultMessage;
      new;
      SetLocation(l);
    }

    /**
     * `operator=`: a no-op on itself; otherwise only the location is taken
     * from `other`, and the combined text is rebuilt from this object's own
     * message.
     */
    method Assign(other: Exception)
      requires Valid() && other.Valid()
      modifies this
      ensures Valid()
      ensures Where() == old(other.Where())
      ensures What() == Combined(message, old(other.Where()))
      ensures other == this ==> location == old(location) && messageLocation == old(messageLocation)
    {
      if other == this {
        return;
      }
      SetLocation(other.Where());
    }

    /**
     * `~Exception`: both buffers are released, location first. `freed`
     * lists them in that order; they are never the same buffer, so neither
     * is released twice.
     */
    method Destroy() returns (freed: seq<object>)
      requires Valid()
      ensures |freed| == 2 && freed[0] != freed[1]
      ensures freed == [location, messageLocation]
    {
      freed := [location, messageLocation];
    }
  }
}
