/** The states of the three parsers, which all live in the one `state` field of a request. */
module ParserState {
  datatype State =
    | Start
    // request line (ngx_http_parse.c:105-133)
    | Method | SpacesBeforeUri | Schema | SchemaSlash | SchemaSlashSlash
    | HostStart | Host | HostEnd | HostIpLiteral | Port | HostHttp09
    | AfterSlashInUri | CheckUri | CheckUriHttp09 | Uri | Http09
    | SpacesAfterDigit
    // request line and status line
    | HttpH | HttpHT | HttpHTT | HttpHTTP
    | FirstMajorDigit | MajorDigit | FirstMinorDigit | MinorDigit
    // status line (ngx_http_parse.c:1106-1120)
    | StatusCode | SpaceAfterStatus | StatusText
    // header line (ngx_http_parse.c:829-838)
    | Name | SpaceBeforeValue | Value | SpaceAfterValue | IgnoreLine | HeaderAlmostDone
    // all three
    | AlmostDone
}
