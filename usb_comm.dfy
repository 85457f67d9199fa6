/**
 * The HID report sink the data processor forwards to
 * (`usb_comm_send_report(left_clutch, right_clutch)`). Its transport is
 * outside this model: a send records the pair it was handed and answers
 * with a status the host link decides, which may be any esp_err_t.
 */
module UsbComm {
  import opened Types

  class ReportSink {
    /** Every (left, right) pair handed to the sink, oldest first. */
    var sent: seq<Report>

    constructor ()
      ensures sent == []
    {
      sent := [];
    }

    /** The last pair the sink was given, if any. */
    function Last(): (last: Option<Report>)
      reads this
      ensures last.None? <==> sent == []
      ensures last.Some? ==> last.value == sent[|sent| - 1]
    {
      if sent == [] then None else Some(sent[|sent| - 1])
    }

    /** Hands one report to the host link. Whether the host accepts it is not
        visible here, so the returned status is unconstrained. */
    method SendReport(left: uint16, right: uint16) returns (status: EspErr)
      modifies this
      ensures sent == old(sent) + [Report(left, right)]
      ensures Last() == Some(Report(left, right))
    {
      sent := sent + [Report(left, right)];
      status :| true;
    }
  }
}
