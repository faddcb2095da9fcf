// The interface a state function gets: it may move the connection to another state and
// decide whether its packet is sent or freed.
module FunIfaces {
  class FunIface {
    var state: nat
    var sendPkt: bool

    constructor (state: nat)
      ensures this.state == state && sendPkt
    {
      this.state := state;
      sendPkt := true;
    }

    method FreePkt()
      modifies this`sendPkt
      ensures !sendPkt
    {
      sendPkt := false;
    }

    method Transition(newState: nat)
      modifies this`state
      ensures state == newState
    {
      state := newState;
    }
  }
}
