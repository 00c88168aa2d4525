/** The parts of the normalized records that the sensor prints. */
module Ocsf {
  import opened Prelude

  datatype Tls = Tls(version: string, cipherSuites: seq<string>, fingerprint: Option<string>)

  /** The numbers and names every record class carries. */
  datatype Header = Header(classUid: i32, name: string, severityId: i32, typeUid: i32)

  datatype OcsfEvent =
    | NetworkActivity(header: Header, clientGuid: string, clientInstanceGuid: Option<string>,
                      srcIp: Option<string>, protocolName: Option<string>, tls: Option<Tls>)
    | ApiActivity(header: Header, operation: string, serviceUid: string, serviceName: string,
                  actor: Option<string>)
    | DetectionFinding(header: Header, desc: string, suser: Option<string>)
}
