/** The app's own error kinds (EarthQuake/Model/DataError.swift). */
module DataErrors {

  datatype DataError =
    | NoData       // the fetch failed or the response was not HTTP 200
    | InvalidData  // declared by the app, never thrown by the ingestion code
    | MissingData  // declared by the app, used only by a disabled decoder
}
